/**
 * The brand directory's alphabet navigation: every brand is indexed under the first
 * character of its name (upper-cased, with every decimal digit indexed as "#"), the
 * buttons are "All", "#" and the letters A to Z that some brand is indexed under, a
 * button shows the brands indexed under it, and a navigation label is broken after its
 * first "&".
 */
module BrandNavigation {

  import opened Wrappers
  import opened Chars

  // ---------- the index character of a brand ----------

  /** The characters `String.prototype.trim` removes: the white space and line
      terminators of the ECMAScript grammar. */
  predicate IsSpace(c: char)
  {
    c == '\t' || c == '\n' || c == '\U{000B}' || c == '\U{000C}' || c == '\r' || c == ' '
    || c == '\U{00A0}' || c == '\U{1680}' || ('\U{2000}' <= c <= '\U{200A}')
    || c == '\U{2028}' || c == '\U{2029}' || c == '\U{202F}' || c == '\U{205F}'
    || c == '\U{3000}' || c == '\U{FEFF}'
  }

  /** The string without its leading white space. */
  function TrimStart(s: string): (t: string)
    ensures |t| <= |s| && t == s[|s| - |t|..]
    ensures t == [] || !IsSpace(t[0])
    ensures forall j :: 0 <= j < |s| - |t| ==> IsSpace(s[j])
  {
    if s != [] && IsSpace(s[0]) then TrimStart(s[1..]) else s
  }

  /** The string without its trailing white space. */
  function TrimEnd(s: string): (t: string)
    ensures |t| <= |s| && t == s[..|t|]
    ensures t == [] || !IsSpace(t[|t| - 1])
    ensures forall j :: |t| <= j < |s| ==> IsSpace(s[j])
  {
    if s != [] && IsSpace(s[|s| - 1]) then TrimEnd(s[..|s| - 1]) else s
  }

  /** `trim()`: the string without its leading and trailing white space. */
  function Trim(s: string): string
  {
    TrimEnd(TrimStart(s))
  }

  /** The trimmed string is no longer than the string, neither starts nor ends with
      white space, and is empty exactly when the string is all white space. */
  lemma TrimSpec(s: string)
    ensures var t := Trim(s);
      |t| <= |s| && (t == [] || (!IsSpace(t[0]) && !IsSpace(t[|t| - 1])))
    ensures Trim(s) == [] <==> forall j :: 0 <= j < |s| ==> IsSpace(s[j])
  {
    var u := TrimStart(s);
    if u != [] {
      TrimEndKeepsFirst(u);
    }
  }

  /** The trimmed string is empty exactly when the string is all white space, and
      otherwise starts with the string's first character that is not white space. */
  lemma TrimFirst(s: string, k: nat)
    requires k <= |s|
    requires forall j :: 0 <= j < k ==> IsSpace(s[j])
    ensures k == |s| ==> Trim(s) == []
    ensures k < |s| && !IsSpace(s[k]) ==> Trim(s) != [] && Trim(s)[0] == s[k]
  {
    var t := TrimStart(s);
    if k < |s| && !IsSpace(s[k]) {
      assert |s| - |t| == k;
      assert t[0] == s[k];
      TrimEndKeepsFirst(t);
    }
  }

  /** `toUpperCase()` on one character; only the ASCII letters are modelled. */
  function ToUpper(c: char): char
  {
    if 'a' <= c <= 'z' then (c as int - 32) as char else c
  }

  /** The index character of a name whose first non-white-space character is `c`:
      the upper-cased character, or "#" for a decimal digit. */
  function IndexCharOf(c: char): string
  {
    var u := ToUpper(c);
    if IsDigit(u) then "#" else [u]
  }

  /** `getFirstChar`: nothing for a missing, non-string or empty name; otherwise the
      first character of the trimmed name, upper-cased, with a decimal digit replaced
      by "#". */
  function GetFirstChar(name: Option<string>): (r: string)
    ensures |r| <= 1
  {
    match name
    case None => ""
    case Some(s) =>
      if s == "" then ""
      else
        var t := Trim(s);
        if t == "" then ""
        else IndexCharOf(t[0])
  }

  /** A name has no index character exactly when it is missing or all white space. */
  lemma GetFirstCharEmpty(name: Option<string>)
    ensures GetFirstChar(name) == []
        <==> name.None? || forall j :: 0 <= j < |name.value| ==> IsSpace(name.value[j])
  {
    if name.Some? {
      var s := name.value;
      var k := |s| - |TrimStart(s)|;
      TrimFirst(s, k);
      if k < |s| {
        assert !IsSpace(s[k]);
      }
    }
  }

  /** Otherwise the index character is that of the name's first character that is
      not white space. */
  lemma GetFirstCharAt(s: string, k: nat)
    requires k < |s| && !IsSpace(s[k])
    requires forall j :: 0 <= j < k ==> IsSpace(s[j])
    ensures GetFirstChar(Some(s)) == IndexCharOf(s[k])
  {
    TrimFirst(s, k);
  }

  /** Trimming the end keeps a first character that is not white space. */
  lemma TrimEndKeepsFirst(t: string)
    requires t != [] && !IsSpace(t[0])
    ensures TrimEnd(t) != [] && TrimEnd(t)[0] == t[0]
  {
  }

  // ---------- the alphabet buttons ----------

  /** A button label: "All", "#" or one of the letters A to Z. */
  predicate IsLetter(s: string)
  {
    |s| == 1 && 'A' <= s[0] <= 'Z'
  }

  predicate IsLabel(s: string)
  {
    s == "All" || s == "#" || IsLetter(s)
  }

  /** `localeCompare`, modelled as the order of the characters' code points, which
      for single letters A to Z is their alphabetical order. */
  function LocaleCompare(a: string, b: string): int
  {
    if a == [] && b == [] then 0
    else if a == [] then -1
    else if b == [] then 1
    else if a[0] < b[0] then -1
    else if a[0] > b[0] then 1
    else LocaleCompare(a[1..], b[1..])
  }

  /** The comparator handed to `sort`: "All" first, then "#", then the rest by
      `localeCompare`. */
  function Compare(a: string, b: string): int
  {
    if a == "All" then -1
    else if b == "All" then 1
    else if a == "#" then -1
    else if b == "#" then 1
    else LocaleCompare(a, b)
  }

  /** The position of a label in the alphabet bar. */
  function Rank(s: string): int
    requires IsLabel(s)
  {
    if s == "All" then 0 else if s == "#" then 1 else 2 + (s[0] as int - 'A' as int)
  }

  /** On two different labels the comparator orders them by their rank, so it is a
      strict total order on labels. */
  lemma CompareIsRank(a: string, b: string)
    requires IsLabel(a) && IsLabel(b) && a != b
    ensures Compare(a, b) < 0 <==> Rank(a) < Rank(b)
    ensures Compare(a, b) > 0 <==> Rank(a) > Rank(b)
    ensures Compare(a, b) != 0
  {
    if IsLetter(a) && IsLetter(b) {
      assert a == [a[0]] && b == [b[0]];
      assert a[0] != b[0];
      assert a != "All" && b != "All" && a != "#" && b != "#";
      assert LocaleCompare(a, b) == if a[0] < b[0] then -1 else 1;
    }
  }

  /** A sequence of labels in strictly increasing rank. */
  predicate RankSorted(xs: seq<string>)
  {
    (forall i :: 0 <= i < |xs| ==> IsLabel(xs[i]))
    && forall i, j :: 0 <= i < j < |xs| ==> Rank(xs[i]) < Rank(xs[j])
  }

  /** The label of rank `r`. */
  function LabelAt(r: nat): (s: string)
    requires r < 28
    ensures IsLabel(s) && Rank(s) == r
  {
    if r == 0 then "All" else if r == 1 then "#" else [(63 + r) as char]
  }

  /** The labels among `present` of rank `r` and above, in rank order. */
  function LabelsFrom(present: set<string>, r: nat): seq<string>
    requires r <= 28
    decreases 28 - r
  {
    if r == 28 then []
    else if LabelAt(r) in present then [LabelAt(r)] + LabelsFrom(present, r + 1)
    else LabelsFrom(present, r + 1)
  }

  /** `LabelsFrom` lists exactly the labels of `present` of rank `r` and above, in
      strictly increasing rank. */
  lemma {:induction false} LabelsFromSpec(present: set<string>, r: nat)
    requires r <= 28
    ensures var out := LabelsFrom(present, r);
      RankSorted(out) && forall i :: 0 <= i < |out| ==> Rank(out[i]) >= r
    ensures forall s :: s in LabelsFrom(present, r) <==> s in present && IsLabel(s) && Rank(s) >= r
    decreases 28 - r
  {
    LabelsFromMembers(present, r);
    if r < 28 {
      LabelsFromSpec(present, r + 1);
    }
  }

  /** The members of `LabelsFrom`: the labels of `present` of rank `r` and above. */
  lemma {:induction false} LabelsFromMembers(present: set<string>, r: nat)
    requires r <= 28
    ensures forall s :: s in LabelsFrom(present, r) <==> s in present && IsLabel(s) && Rank(s) >= r
    decreases 28 - r
  {
    if r < 28 {
      LabelsFromMembers(present, r + 1);
      forall s | IsLabel(s) && Rank(s) == r
        ensures s == LabelAt(r)
      {
        LabelOfRank(s, LabelAt(r));
      }
    }
  }

  /** `Array.from(letters).sort(comparator)` on a set of labels: the labels in the
      order of their rank. */
  function SortLabels(present: set<string>): seq<string>
  {
    LabelsFrom(present, 0)
  }

  /** A rank-sorted sequence is sorted by the comparator: every earlier label compares
      below every later one. */
  lemma RankSortedByComparator(xs: seq<string>)
    requires RankSorted(xs)
    ensures forall i, j :: 0 <= i < j < |xs| ==> Compare(xs[i], xs[j]) < 0
  {
    forall i, j | 0 <= i < j < |xs|
      ensures Compare(xs[i], xs[j]) < 0
    {
      CompareIsRank(xs[i], xs[j]);
    }
  }

  /** Sorting is determined: two rank-sorted sequences with the same labels are equal,
      so whatever algorithm `sort` uses, the comparator fixes the result. */
  lemma {:induction false} RankSortedUnique(xs: seq<string>, ys: seq<string>)
    requires RankSorted(xs) && RankSorted(ys)
    requires forall s :: s in xs <==> s in ys
    ensures xs == ys
    decreases |xs|
  {
    SameMembersBothEmpty(xs, ys);
    if xs != [] {
      RankSortedHead(xs, ys);
      RankSortedHead(ys, xs);
      LabelOfRank(xs[0], ys[0]);
      forall s
        ensures s in xs[1..] <==> s in ys[1..]
      {
        if s in xs[1..] {
          assert s in ys;
          assert s != ys[0];
        }
        if s in ys[1..] {
          assert s in xs;
          assert s != xs[0];
        }
      }
      RankSortedUnique(xs[1..], ys[1..]);
    }
  }

  /** Two sequences with the same members are both empty or both not. */
  lemma SameMembersBothEmpty(xs: seq<string>, ys: seq<string>)
    requires forall s :: s in xs <==> s in ys
    ensures xs == [] <==> ys == []
  {
    if xs != [] {
      assert xs[0] in ys;
    }
    if ys != [] {
      assert ys[0] in xs;
    }
  }

  /** The head of a rank-sorted sequence has the least rank of its labels. */
  lemma RankSortedHead(xs: seq<string>, ys: seq<string>)
    requires RankSorted(xs) && RankSorted(ys) && xs != [] && ys != []
    requires ys[0] in xs
    ensures Rank(xs[0]) <= Rank(ys[0])
  {
    var i :| 0 <= i < |xs| && xs[i] == ys[0];
    if i > 0 {
      assert Rank(xs[0]) < Rank(xs[i]);
    }
  }

  /** Two labels of the same rank are the same label. */
  lemma LabelOfRank(a: string, b: string)
    requires IsLabel(a) && IsLabel(b) && Rank(a) == Rank(b)
    ensures a == b
  {
    if IsLetter(a) && IsLetter(b) {
      assert a == [a[0]] && b == [b[0]];
    }
  }

  /** The letters A to Z that some brand is indexed under. */
  function IndexLetters(items: seq<string>): set<string>
  {
    if items == [] then {}
    else
      var c := GetFirstChar(Some(items[|items| - 1]));
      IndexLetters(items[..|items| - 1]) + if IsLetter(c) then {c} else {}
  }

  /** The index letters are exactly the letters A to Z some brand is indexed under. */
  lemma {:induction false} IndexLettersMembers(items: seq<string>, s: string)
    ensures s in IndexLetters(items)
        <==> IsLetter(s) && exists i :: 0 <= i < |items| && GetFirstChar(Some(items[i])) == s
  {
    if items != [] {
      var init := items[..|items| - 1];
      IndexLettersMembers(init, s);
      if exists i :: 0 <= i < |items| && GetFirstChar(Some(items[i])) == s {
        var i :| 0 <= i < |items| && GetFirstChar(Some(items[i])) == s;
        if i < |init| {
          assert init[i] == items[i];
        }
      }
      if exists i :: 0 <= i < |init| && GetFirstChar(Some(init[i])) == s {
        var i :| 0 <= i < |init| && GetFirstChar(Some(init[i])) == s;
        assert items[i] == init[i];
      }
    }
  }

  /** One more brand adds its index character when that is a letter. */
  lemma IndexLettersStep(items: seq<string>, i: nat)
    requires i < |items|
    ensures var c := GetFirstChar(Some(items[i]));
      IndexLetters(items[..i + 1]) == IndexLetters(items[..i]) + if IsLetter(c) then {c} else {}
  {
    assert items[..i + 1][..i] == items[..i];
  }

  /** The labels `createAlphabetButtons` makes buttons for: none without brands,
      otherwise "All", "#" and the index letters, sorted by the comparator. */
  function ButtonLetters(items: seq<string>): seq<string>
  {
    if items == [] then [] else SortLabels({"All", "#"} + IndexLetters(items))
  }

  /** The buttons start with "All" and "#", and after them come the index letters in
      alphabetical order. */
  lemma ButtonLettersShape(items: seq<string>)
    requires items != []
    ensures var out := ButtonLetters(items);
      |out| >= 2 && out[0] == "All" && out[1] == "#"
      && out[2..] == LabelsFrom(IndexLetters(items), 2)
  {
    var letters := IndexLetters(items);
    var present := {"All", "#"} + letters;
    var out := ButtonLetters(items);
    assert out == ["All"] + LabelsFrom(present, 1);
    assert LabelsFrom(present, 1) == ["#"] + LabelsFrom(present, 2);
    assert out[2..] == LabelsFrom(present, 2);
    LettersAfterAllAndHash(letters);
  }

  /** Adding "All" and "#" changes nothing from rank 2 on. */
  lemma LettersAfterAllAndHash(letters: set<string>)
    ensures LabelsFrom({"All", "#"} + letters, 2) == LabelsFrom(letters, 2)
  {
    var present := {"All", "#"} + letters;
    forall s | IsLabel(s) && Rank(s) >= 2
      ensures s in present <==> s in letters
    {
      assert s != "All" && s != "#";
    }
    LabelsFromIgnoresLowerRanks(present, letters, 2);
  }

  /** `LabelsFrom` only looks at the labels of rank `r` and above. */
  lemma LabelsFromIgnoresLowerRanks(p: set<string>, q: set<string>, r: nat)
    requires r <= 28
    requires forall s :: IsLabel(s) && Rank(s) >= r ==> (s in p <==> s in q)
    ensures LabelsFrom(p, r) == LabelsFrom(q, r)
  {
    LabelsFromSpec(p, r);
    LabelsFromSpec(q, r);
    RankSortedUnique(LabelsFrom(p, r), LabelsFrom(q, r));
  }

  /** Every index letter has exactly one button after "All" and "#", and no other
      label does. */
  lemma ButtonLettersMembers(items: seq<string>, s: string)
    requires items != []
    ensures s in ButtonLetters(items)[2..]
        <==> IsLetter(s) && exists i :: 0 <= i < |items| && GetFirstChar(Some(items[i])) == s
  {
    ButtonLettersShape(items);
    IndexLettersMembers(items, s);
    LabelsFromSpec(IndexLetters(items), 2);
  }

  /** The buttons are sorted by the comparator, and no other arrangement of their
      labels is. */
  lemma ButtonLettersSorted(items: seq<string>, xs: seq<string>)
    ensures var out := ButtonLetters(items);
      (forall i, j :: 0 <= i < j < |out| ==> Compare(out[i], out[j]) < 0)
      && (RankSorted(xs) && (forall s :: s in xs <==> s in out) ==> xs == out)
  {
    var out := ButtonLetters(items);
    LabelsFromSpec(if items == [] then {} else {"All", "#"} + IndexLetters(items), 0);
    RankSortedByComparator(out);
    if RankSorted(xs) && (forall s :: s in xs <==> s in out) {
      RankSortedUnique(xs, out);
    }
  }

  /** `createAlphabetButtons`: nothing without brands; otherwise a set holding "All"
      and "#" gains every index character that is a letter A to Z, and is sorted. */
  method CreateAlphabetButtons(items: seq<string>) returns (letters: seq<string>)
    ensures letters == ButtonLetters(items)
  {
    if |items| == 0 {
      return [];
    }
    var present: set<string> := {"All", "#"};
    for i := 0 to |items|
      invariant present == {"All", "#"} + IndexLetters(items[..i])
    {
      var c := GetFirstChar(Some(items[i]));
      if c != "" && IsLetter(c) {
        present := present + {c};
      }
      IndexLettersStep(items, i);
    }
    assert items[..|items|] == items;
    letters := SortLabels(present);
  }

  // ---------- filtering ----------

  /** A brand entry: the text of its link, if it has one, and its `style.display`. */
  datatype BrandItem = BrandItem(link: Option<string>, display: string)

  /** A brand shows under `letter` when that is "All" or the brand's index character. */
  predicate Shown(text: string, letter: string)
  {
    letter == "All" || GetFirstChar(Some(text)) == letter
  }

  /** An entry after filtering by `letter`: shown or hidden, or unchanged without a
      link. */
  function Filtered(item: BrandItem, letter: string): BrandItem
  {
    match item.link
    case None => item
    case Some(_) => item.(display := if letter == "All" || GetFirstChar(item.link) == letter then "" else "none")
  }

  /** `filterBrands`: every entry with a link is shown or hidden. */
  method FilterBrands(items: array<BrandItem>, letter: string)
    modifies items
    ensures forall i :: 0 <= i < items.Length ==> items[i] == Filtered(old(items[i]), letter)
  {
    ghost var before := items[..];
    for i := 0 to items.Length
      invariant forall j :: 0 <= j < i ==> items[j] == Filtered(before[j], letter)
      invariant items[i..] == before[i..]
    {
      var item := items[i];
      if item.link.None? {
        continue;
      }
      var brandLetter := GetFirstChar(item.link);
      var shown := item.(display := if letter == "All" || brandLetter == letter then "" else "none");
      assert shown == Filtered(item, letter);
      items[i] := shown;
    }
  }

  /** "All" shows every brand with a link; any other button shows exactly the brands
      indexed under it; entries without a link keep their display. */
  lemma FilterProperties(item: BrandItem, letter: string)
    ensures item.link.None? ==> Filtered(item, letter) == item
    ensures item.link.Some? ==> Filtered(item, letter).link == item.link
    ensures item.link.Some? && letter == "All" ==> Filtered(item, letter).display == ""
    ensures item.link.Some? && letter != "All" ==>
      (Filtered(item, letter).display == "" <==> GetFirstChar(item.link) == letter)
    ensures item.link.Some? ==> Filtered(item, letter).display in {"", "none"}
  {
  }

  /** A brand whose name starts with a letter A to Z or a digit has a button that
      shows it, and no other button but "All" shows it. */
  lemma EveryBrandHasOneButton(items: seq<string>, i: nat, letter: string)
    requires i < |items|
    requires IsLabel(GetFirstChar(Some(items[i])))
    requires letter in ButtonLetters(items) && letter != "All"
    ensures GetFirstChar(Some(items[i])) in ButtonLetters(items)
    ensures Shown(items[i], letter) <==> letter == GetFirstChar(Some(items[i]))
  {
    ButtonLettersShape(items);
    var out := ButtonLetters(items);
    var c := GetFirstChar(Some(items[i]));
    if IsLetter(c) {
      ButtonLettersMembers(items, c);
      assert c in out[2..];
    } else if c == "#" {
      assert out[1] == c;
    }
  }

  // ---------- line breaks in navigation labels ----------

  /** `indexOf('&')`: the first position of "&", or -1. */
  function IndexOfAmpersand(s: string): (i: int)
    ensures -1 <= i < |s|
    ensures i >= 0 ==> s[i] == '&' && '&' !in s[..i]
    ensures i == -1 <==> '&' !in s
  {
    if s == [] then -1
    else if s[0] == '&' then 0
    else
      var i := IndexOfAmpersand(s[1..]);
      assert s[1..][..if i < 0 then 0 else i] == s[1..if i < 0 then 1 else i + 1];
      if i < 0 then -1 else i + 1
  }

  /** The split of `addLineBreaksAfterAmpersands`: a label with an "&" is cut just
      after its first "&"; a label without one is not cut. */
  function SplitAfterAmpersand(text: string): (r: Option<(string, string)>)
    ensures r.None? <==> '&' !in text
    ensures r.Some? ==> r.value.0 + r.value.1 == text
    ensures r.Some? ==>
      |r.value.0| >= 1 && r.value.0[|r.value.0| - 1] == '&' && '&' !in r.value.0[..|r.value.0| - 1]
  {
    if '&' !in text then None
    else
      var splitIndex := IndexOfAmpersand(text) + 1;
      assert text[..splitIndex][..splitIndex - 1] == text[..splitIndex - 1];
      Some((text[..splitIndex], text[splitIndex..]))
  }

  /** The first part of the split is pinned down by ending in the first "&". */
  lemma SplitIsFirstAmpersand(text: string, k: nat)
    requires k < |text| && text[k] == '&' && '&' !in text[..k]
    ensures SplitAfterAmpersand(text) == Some((text[..k + 1], text[k + 1..]))
  {
    var r := SplitAfterAmpersand(text);
    var first := r.value.0;
    assert text[..|first|] == first;
  }

  /** `addLineBreaksAfterAmpersands` on the navigation labels: a label with an "&"
      becomes its two parts with a line break between them. */
  method AddLineBreaksAfterAmpersands(labels: array<string>)
    modifies labels
    ensures forall i :: 0 <= i < labels.Length ==>
      labels[i] == match SplitAfterAmpersand(old(labels[i]))
                   case None => old(labels[i])
                   case Some((first, second)) => first + "<br>" + second
  {
    for i := 0 to labels.Length
      invariant forall j :: 0 <= j < i ==>
        labels[j] == match SplitAfterAmpersand(old(labels[j]))
                     case None => old(labels[j])
                     case Some((first, second)) => first + "<br>" + second
      invariant forall j :: i <= j < labels.Length ==> labels[j] == old(labels[j])
    {
      var text := labels[i];
      if '&' in text {
        var splitIndex := IndexOfAmpersand(text) + 1;
        var firstPart := text[..splitIndex];
        var secondPart := text[splitIndex..];
        labels[i] := firstPart + "<br>" + secondPart;
      }
    }
  }
}
