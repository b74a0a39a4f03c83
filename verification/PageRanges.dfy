/** The page-range parser of both OCR services: which pages a text like "1, 4-6" selects. */
module PageRanges {
  import opened Wrappers

  // ---- Python's strings and integers ----

  /** `str.isspace` for one character: what `strip` and `int` drop at the ends. */
  predicate IsSpace(c: char) {
    || '\U{0009}' <= c <= '\U{000D}'
    || '\U{001C}' <= c <= ' '
    || c == '\U{0085}'
    || c == '\U{00A0}'
    || c == '\U{1680}'
    || '\U{2000}' <= c <= '\U{200A}'
    || c == '\U{2028}'
    || c == '\U{2029}'
    || c == '\U{202F}'
    || c == '\U{205F}'
    || c == '\U{3000}'
  }

  predicate Blank(s: string) {
    forall i :: 0 <= i < |s| ==> IsSpace(s[i])
  }

  function StripLeft(s: string): string {
    if s != "" && IsSpace(s[0]) then StripLeft(s[1..]) else s
  }

  function StripRight(s: string): string {
    if s != "" && IsSpace(s[|s| - 1]) then StripRight(s[..|s| - 1]) else s
  }

  function Strip(s: string): string {
    StripRight(StripLeft(s))
  }

  predicate IsDigit(c: char) {
    '0' <= c <= '9'
  }

  /** Digits with single underscores between them. */
  predicate IsDigits(s: string) {
    && s != "" && IsDigit(s[0]) && IsDigit(s[|s| - 1])
    && (forall i :: 0 <= i < |s| ==> IsDigit(s[i]) || s[i] == '_')
    && forall i :: 0 < i < |s| ==> IsDigit(s[i - 1]) || IsDigit(s[i])
  }

  /** The number the digits of s spell. */
  function Value(s: string): nat {
    if s == "" then 0
    else
      var last := s[|s| - 1];
      if IsDigit(last) then 10 * Value(s[..|s| - 1]) + ((last - '0') as nat) else Value(s[..|s| - 1])
  }

  /** `int(s)`; None is a ValueError. */
  function Int(s: string): Option<int> {
    var t := Strip(s);
    if t != "" && (t[0] == '+' || t[0] == '-') then
      var v: int := Value(t[1..]);
      if IsDigits(t[1..]) then Some(if t[0] == '-' then -v else v) else None
    else if IsDigits(t) then Some(Value(t))
    else None
  }

  /** `s.split(c)` */
  function Split(s: string, c: char): (parts: seq<string>)
    ensures parts != []
  {
    if s == "" then [""]
    else if s[0] == c then [""] + Split(s[1..], c)
    else
      var rest := Split(s[1..], c);
      [[s[0]] + rest[0]] + rest[1..]
  }

  function Join(parts: seq<string>, c: char): string
    requires parts != []
  {
    if |parts| == 1 then parts[0] else parts[0] + [c] + Join(parts[1..], c)
  }

  function Find(s: string, c: char): (k: nat)
    ensures k <= |s| && c !in s[..k] && (k < |s| ==> s[k] == c)
  {
    if s == "" || s[0] == c then 0 else Find(s[1..], c) + 1
  }

  // ---- what a text denotes ----

  function Min(a: int, b: int): int {
    if a < b then a else b
  }

  function Max(a: int, b: int): int {
    if a < b then b else a
  }

  function Interval(first: int, last: int): (pages: set<int>)
    ensures forall p :: p in pages <==> first <= p <= last
    decreases last - first
  {
    if first > last then {} else Interval(first, last - 1) + {last}
  }

  /** The pages first..last that exist. */
  function Clip(first: int, last: int, total: int): set<int> {
    Interval(first, Min(last, total))
  }

  /** The pages one comma-separated part asks for. A range that starts at 0 or below is ignored, one that ends early is its start. */
  function PartPages(part: string, total: int): set<int> {
    var chunk := Strip(part);
    var k := Find(chunk, '-');
    if chunk == "" then {}
    else if k < |chunk| then
      var start, end := Int(chunk[..k]), Int(chunk[k + 1..]);
      if start.None? || end.None? || start.value <= 0 then {}
      else Clip(start.value, Max(start.value, end.value), total)
    else
      var page := Int(chunk);
      if page.Some? && 1 <= page.value then Clip(page.value, page.value, total) else {}
  }

  function Union(sets: seq<set<int>>): set<int> {
    if sets == [] then {} else Union(sets[..|sets| - 1]) + sets[|sets| - 1]
  }

  function PartSets(parts: seq<string>, total: int): seq<set<int>> {
    seq(|parts|, i requires 0 <= i < |parts| => PartPages(parts[i], total))
  }

  function AllPages(parts: seq<string>, total: int): set<int> {
    Union(PartSets(parts, total))
  }

  /** The members of pages among 1..hi, in order. */
  function Listing(pages: set<int>, hi: int): seq<int>
    decreases hi
  {
    if hi <= 0 then [] else Listing(pages, hi - 1) + (if hi in pages then [hi] else [])
  }

  function Everything(total: int): set<int> {
    Interval(1, total)
  }

  /** The selection: the union over all parts, or every page if that is empty. */
  function Selected(raw: string, total: int): set<int> {
    var pages := AllPages(Split(raw, ','), total);
    if pages == {} then Everything(total) else pages
  }

  function Pages(raw: string, total: int): seq<int> {
    Listing(Selected(raw, total), total)
  }

  // ---- sorted lists ----

  ghost predicate Increasing(xs: seq<int>) {
    forall i, j :: 0 <= i < j < |xs| ==> xs[i] < xs[j]
  }

  lemma {:induction false} ListingIsSorted(pages: set<int>, hi: int)
    ensures Increasing(Listing(pages, hi))
    ensures forall p :: p in Listing(pages, hi) <==> p in pages && 1 <= p <= hi
    decreases hi
  {
    if hi > 0 {
      ListingIsSorted(pages, hi - 1);
      var xs := Listing(pages, hi - 1);
      assert forall i :: 0 <= i < |xs| ==> xs[i] in xs;
    }
  }

  /** A strictly increasing list up to hi that has hi ends with it, and it has it nowhere else. */
  lemma EndsWith(init: seq<int>, last: int, hi: int)
    requires Increasing(init + [last]) && hi in init + [last] && forall p :: p in init + [last] ==> p <= hi
    ensures last == hi && Increasing(init) && hi !in init
  {
    var xs := init + [last];
    assert forall i :: 0 <= i < |init| ==> init[i] == xs[i] && xs[i] < xs[|init|];
    assert xs[|init|] in xs;
  }

  lemma InitMembers(init: seq<int>, hi: int, pages: set<int>)
    requires hi !in init && forall p :: p in init + [hi] <==> p in pages && 1 <= p <= hi
    ensures forall p :: p in init <==> p in pages && 1 <= p <= hi - 1
  {
    forall p
      ensures p in init <==> p in pages && 1 <= p <= hi - 1
    {
      assert p in init + [hi] <==> p in init || p == hi;
    }
  }

  /** A strictly increasing list is determined by its members. */
  lemma {:induction false} ListingIsUnique(xs: seq<int>, pages: set<int>, hi: int)
    requires Increasing(xs)
    requires forall p :: p in xs <==> p in pages && 1 <= p <= hi
    ensures xs == Listing(pages, hi)
    decreases hi
  {
    assert xs != [] ==> xs[0] in xs;
    if hi <= 0 {
    } else if hi in pages {
      assert hi in xs;
      var init, last := SplitLast(xs);
      EndsWith(init, last, hi);
      InitMembers(init, hi, pages);
      ListingIsUnique(init, pages, hi - 1);
    } else {
      ListingIsUnique(xs, pages, hi - 1);
    }
  }

  lemma PartInRange(part: string, total: int)
    ensures forall p :: p in PartPages(part, total) ==> 1 <= p <= total
  {
  }

  /** The union has a member exactly when one of the sets does. */
  lemma {:induction false} UnionHas(sets: seq<set<int>>, p: int)
    ensures p in Union(sets) <==> exists i :: 0 <= i < |sets| && p in sets[i]
  {
    if sets != [] {
      var init := sets[..|sets| - 1];
      UnionHas(init, p);
      if p in Union(init) {
        var i :| 0 <= i < |init| && p in init[i];
        assert p in sets[i];
      }
    }
  }

  lemma PartsInRange(parts: seq<string>, total: int)
    ensures forall p :: p in AllPages(parts, total) ==> 1 <= p <= total
  {
    forall p | p in AllPages(parts, total)
      ensures 1 <= p <= total
    {
      UnionHas(PartSets(parts, total), p);
      var i :| 0 <= i < |parts| && p in PartSets(parts, total)[i];
      PartInRange(parts[i], total);
    }
  }

  /** No listed page means no page, as long as all of them are in range. */
  lemma EmptyListing(pages: set<int>, hi: int)
    requires forall p :: p in pages ==> 1 <= p <= hi
    requires Listing(pages, hi) == []
    ensures pages == {}
  {
    ListingIsSorted(pages, hi);
    assert forall p :: p !in pages;
  }

  /** With at least one page: not empty, strictly increasing, and exactly the selected pages, all of them real. */
  lemma PagesAreTheSelection(raw: string, total: int)
    requires total > 0
    ensures Pages(raw, total) != [] && Increasing(Pages(raw, total))
    ensures forall p :: p in Pages(raw, total) <==> p in Selected(raw, total)
    ensures forall p :: p in Pages(raw, total) ==> 1 <= p <= total
  {
    PartsInRange(Split(raw, ','), total);
    assert 1 in Everything(total);
    ListingIsSorted(Selected(raw, total), total);
    if Pages(raw, total) == [] {
      EmptyListing(Selected(raw, total), total);
      assert false;
    }
  }

  // ---- stripping the whole text changes nothing ----

  lemma {:induction false} StripLeftBlank(gap: string, s: string)
    requires Blank(gap)
    ensures StripLeft(gap + s) == StripLeft(s)
  {
    if gap == "" {
      assert gap + s == s;
    } else {
      assert (gap + s)[1..] == gap[1..] + s;
      StripLeftBlank(gap[1..], s);
    }
  }

  lemma {:induction false} StripRightBlank(s: string, gap: string)
    requires Blank(gap)
    ensures StripRight(s + gap) == StripRight(s)
    decreases |gap|
  {
    if gap == "" {
      assert s + gap == s;
    } else {
      assert (s + gap)[..|s + gap| - 1] == s + gap[..|gap| - 1];
      StripRightBlank(s, gap[..|gap| - 1]);
    }
  }

  lemma {:induction false} StripLeftSplits(s: string) returns (gap: string)
    ensures s == gap + StripLeft(s) && Blank(gap)
  {
    if s != "" && IsSpace(s[0]) {
      var g := StripLeftSplits(s[1..]);
      gap := [s[0]] + g;
      HeadAndTail(s, g, StripLeft(s[1..]));
    } else {
      gap := "";
    }
  }

  lemma {:induction false} StripRightSplits(s: string) returns (gap: string)
    ensures s == StripRight(s) + gap && Blank(gap)
  {
    if s != "" && IsSpace(s[|s| - 1]) {
      var g := StripRightSplits(s[..|s| - 1]);
      gap := g + [s[|s| - 1]];
      assert s == s[..|s| - 1] + [s[|s| - 1]];
    } else {
      gap := "";
    }
  }

  lemma {:induction false} StripLeftAppend(s: string, gap: string)
    requires Blank(gap)
    ensures StripLeft(s + gap) == if StripLeft(s) == "" then "" else StripLeft(s) + gap
  {
    var left := StripLeftSplits(s);
    assert s + gap == left + (StripLeft(s) + gap);
    StripLeftBlank(left, StripLeft(s) + gap);
    if StripLeft(s) == "" {
      assert "" + gap == gap == gap + "";
      StripLeftBlank(gap, "");
    } else {
      StripLeftStops(s);
    }
  }

  lemma {:induction false} StripLeftStops(s: string)
    ensures StripLeft(s) != "" ==> !IsSpace(StripLeft(s)[0])
  {
    if s != "" && IsSpace(s[0]) {
      StripLeftStops(s[1..]);
    }
  }

  /** White space around a text disappears in `strip`. */
  lemma StripPadded(left: string, s: string, right: string)
    requires Blank(left) && Blank(right)
    ensures Strip(left + s + right) == Strip(s)
  {
    assert left + s + right == left + (s + right);
    StripLeftBlank(left, s + right);
    StripLeftAppend(s, right);
    StripRightBlank(StripLeft(s), right);
  }

  lemma PaddedPart(left: string, part: string, right: string, total: int)
    requires Blank(left) && Blank(right)
    ensures PartPages(left + part + right, total) == PartPages(part, total)
  {
    StripPadded(left, part, right);
  }

  /** A comma-free text in front of s and one behind it end up in the first and last part. */
  lemma {:induction false} SplitPrefix(gap: string, s: string)
    requires ',' !in gap
    ensures var parts := Split(s, ',');
      Split(gap + s, ',') == [gap + parts[0]] + parts[1..]
  {
    if gap == "" {
      assert gap + s == s && "" + Split(s, ',')[0] == Split(s, ',')[0];
    } else {
      assert (gap + s)[1..] == gap[1..] + s;
      SplitPrefix(gap[1..], s);
      assert [gap[0]] + (gap[1..] + Split(s, ',')[0]) == gap + Split(s, ',')[0];
    }
  }

  lemma {:induction false} SplitSuffix(s: string, gap: string)
    requires ',' !in gap
    ensures Split(s + gap, ',') == Behind(Split(s, ','), gap)
  {
    if s == "" {
      SplitPrefix(gap, "");
      assert s + gap == gap == gap + "";
    } else {
      assert (s + gap)[1..] == s[1..] + gap;
      SplitSuffix(s[1..], gap);
      SplitFirst(s);
      SplitFirst(s + gap);
      if s[0] == ',' {
        LastOfCons("", Split(s[1..], ','), gap);
      } else {
        LastOfPush(s[0], Split(s[1..], ','), gap);
      }
    }
  }

  function PushChar(c: char, parts: seq<string>): seq<string>
    requires parts != []
  {
    [[c] + parts[0]] + parts[1..]
  }

  /** gap behind the last part. */
  function Behind(parts: seq<string>, gap: string): seq<string>
    requires parts != []
  {
    parts[..|parts| - 1] + [parts[|parts| - 1] + gap]
  }

  lemma SplitFirst(s: string)
    requires s != ""
    ensures Split(s, ',') == if s[0] == ',' then [""] + Split(s[1..], ',') else PushChar(s[0], Split(s[1..], ','))
  {
  }

  lemma LastOfCons(part: string, parts: seq<string>, gap: string)
    requires parts != []
    ensures Behind([part] + parts, gap) == [part] + Behind(parts, gap)
  {
  }

  lemma LastOfPush(c: char, parts: seq<string>, gap: string)
    requires parts != []
    ensures Behind(PushChar(c, parts), gap) == PushChar(c, Behind(parts, gap))
  {
    if |parts| == 1 {
      assert [c] + (parts[0] + gap) == [c] + parts[0] + gap;
    }
  }

  /** Part by part the same pages, so the same pages altogether. */
  lemma SamePages(a: seq<string>, b: seq<string>, total: int)
    requires |a| == |b|
    requires forall i :: 0 <= i < |a| ==> PartPages(a[i], total) == PartPages(b[i], total)
    ensures AllPages(a, total) == AllPages(b, total)
  {
    assert PartSets(a, total) == PartSets(b, total);
  }

  lemma BlankHasNoComma(gap: string)
    requires Blank(gap)
    ensures ',' !in gap
  {
  }

  lemma LeftPadding(gap: string, s: string, total: int)
    requires Blank(gap)
    ensures AllPages(Split(gap + s, ','), total) == AllPages(Split(s, ','), total)
  {
    BlankHasNoComma(gap);
    SplitPrefix(gap, s);
    var parts := Split(s, ',');
    PaddedPart(gap, parts[0], "", total);
    assert gap + parts[0] + "" == gap + parts[0];
    SamePages(Split(gap + s, ','), parts, total);
  }

  lemma RightPadding(s: string, gap: string, total: int)
    requires Blank(gap)
    ensures AllPages(Split(s + gap, ','), total) == AllPages(Split(s, ','), total)
  {
    BlankHasNoComma(gap);
    SplitSuffix(s, gap);
    LastPadded(Split(s, ','), gap, total);
  }

  lemma LastPadded(parts: seq<string>, gap: string, total: int)
    requires parts != [] && Blank(gap)
    ensures AllPages(Behind(parts, gap), total) == AllPages(parts, total)
  {
    var last := parts[|parts| - 1];
    PaddedPart("", last, gap, total);
    assert "" + last + gap == last + gap;
    SamePages(Behind(parts, gap), parts, total);
  }

  lemma StripKeepsPages(raw: string, total: int)
    ensures AllPages(Split(Strip(raw), ','), total) == AllPages(Split(raw, ','), total)
  {
    var left := StripLeftSplits(raw);
    var right := StripRightSplits(StripLeft(raw));
    LeftPadding(left, StripLeft(raw), total);
    RightPadding(Strip(raw), right, total);
  }

  lemma NothingSelected(total: int)
    ensures AllPages(Split("", ','), total) == {}
  {
    assert Split("", ',') == [""];
    assert PartPages("", total) == {};
    assert PartSets([""], total) == [{}];
    assert Union([{}]) == Union([]) + {};
  }

  // ---- the parser ----

  lemma {:induction false} WholeListing(total: int, hi: int)
    requires hi <= total
    ensures |Listing(Everything(total), hi)| == Max(hi, 0)
    ensures forall i :: 0 <= i < Max(hi, 0) ==> Listing(Everything(total), hi)[i] == i + 1
    decreases hi
  {
    if hi > 0 {
      WholeListing(total, hi - 1);
    }
  }

  /** `list(range(1, total + 1))` */
  function Range(total: int): (xs: seq<int>)
    requires total >= 0
    ensures xs == Listing(Everything(total), total)
  {
    WholeListing(total, total);
    seq(total, i => i + 1)
  }

  lemma AllPagesNext(parts: seq<string>, i: nat, total: int)
    requires i < |parts|
    ensures AllPages(parts[..i + 1], total) == AllPages(parts[..i], total) + PartPages(parts[i], total)
  {
    var sets := PartSets(parts[..i + 1], total);
    assert sets[..i] == PartSets(parts[..i], total);
  }

  /** `parse_page_ranges` */
  method ParsePageRanges(raw: string, totalPages: int) returns (selected: seq<int>)
    ensures totalPages <= 0 ==> selected == []
    ensures totalPages > 0 ==> selected == Pages(raw, totalPages)
  {
    if totalPages <= 0 {
      return [];
    }
    var text := Strip(raw);
    StripKeepsPages(raw, totalPages);
    if text == "" {
      NothingSelected(totalPages);
      return Range(totalPages);
    }
    var pages := CollectPages(Split(text, ','), totalPages);
    if pages == {} {
      return Range(totalPages);
    }
    selected := Listing(pages, totalPages);
  }

  /** The loop over the parts, which fills the set. */
  method CollectPages(parts: seq<string>, totalPages: int) returns (pages: set<int>)
    ensures pages == AllPages(parts, totalPages)
  {
    pages := {};
    var i := 0;
    while i < |parts|
      invariant 0 <= i <= |parts|
      invariant pages == AllPages(parts[..i], totalPages)
    {
      AllPagesNext(parts, i, totalPages);
      var chunk := Strip(parts[i]);
      var dash := Find(chunk, '-');
      i := i + 1;
      if chunk == "" {
        continue;
      }
      if dash < |chunk| {
        var start, end := Int(chunk[..dash]), Int(chunk[dash + 1..]);
        if start.None? || end.None? {
          continue;
        }
        if start.value <= 0 {
          continue;
        }
        var last := end.value;
        if last < start.value {
          last := start.value;
        }
        pages := AddRange(pages, start.value, Min(last, totalPages));
        continue;
      }
      var page := Int(chunk);
      if page.None? {
        continue;
      }
      if 1 <= page.value <= totalPages {
        pages := pages + {page.value};
        assert Clip(page.value, page.value, totalPages) == {page.value};
      }
    }
    assert parts[..i] == parts;
  }

  /** The inner loop: every page of a range. */
  method AddRange(before: set<int>, first: int, last: int) returns (pages: set<int>)
    ensures pages == before + Interval(first, last)
  {
    pages := before;
    var page := first;
    while page <= last
      invariant first <= page && (page <= last + 1 || page == first)
      invariant pages == before + Interval(first, page - 1)
    {
      pages := pages + {page};
      page := page + 1;
    }
  }

  // ---- order and repetition of parts do not matter ----

  lemma {:induction false} SplitJoin(parts: seq<string>)
    requires parts != [] && forall i :: 0 <= i < |parts| ==> ',' !in parts[i]
    ensures Split(Join(parts, ','), ',') == parts
  {
    if |parts| == 1 {
      SplitPrefix(parts[0], "");
      assert parts[0] + "" == parts[0];
    } else {
      var rest := [','] + Join(parts[1..], ',');
      SplitJoin(parts[1..]);
      assert rest[1..] == Join(parts[1..], ',');
      SplitPrefix(parts[0], rest);
      assert parts[0] + [','] + Join(parts[1..], ',') == parts[0] + rest;
      assert parts[0] + "" == parts[0];
    }
  }

  lemma SameUnionSamePages(raw: string, other: string, total: int)
    requires AllPages(Split(raw, ','), total) == AllPages(Split(other, ','), total)
    ensures Pages(raw, total) == Pages(other, total)
  {
  }

  /** Parts may be written in any order and any number of times. */
  lemma PartsAreASet(a: seq<string>, b: seq<string>, total: int)
    requires a != [] && b != []
    requires forall i :: 0 <= i < |a| ==> ',' !in a[i]
    requires forall i :: 0 <= i < |b| ==> ',' !in b[i]
    requires forall s :: s in a <==> s in b
    ensures Pages(Join(a, ','), total) == Pages(Join(b, ','), total)
  {
    Covered(a, b, total);
    Covered(b, a, total);
    SplitJoin(a);
    SplitJoin(b);
    SameUnionSamePages(Join(a, ','), Join(b, ','), total);
  }

  lemma Covered(a: seq<string>, b: seq<string>, total: int)
    requires forall s :: s in a ==> s in b
    ensures AllPages(a, total) <= AllPages(b, total)
  {
    var c, d := PartSets(a, total), PartSets(b, total);
    forall p | p in Union(c)
      ensures p in Union(d)
    {
      UnionHas(c, p);
      UnionHas(d, p);
      var i :| 0 <= i < |c| && p in c[i];
      assert a[i] in b;
      var k :| 0 <= k < |b| && b[k] == a[i];
      assert d[k] == c[i];
    }
  }

  // ---- a printer that comes back ----

  function Digit(n: nat): char
    requires n < 10
  {
    '0' + n as char
  }

  function Decimal(n: nat): string {
    if n < 10 then [Digit(n)] else Decimal(n / 10) + [Digit(n % 10)]
  }

  /** A number as someone may write it: blanks around it, a plus sign, leading zeros. */
  datatype Number = Number(left: string, plus: bool, zeros: nat, value: nat, right: string)

  /** A page, a range in either direction, one to a negative number, one that lacks a number, nothing, or a text no number can hold. */
  datatype Segment =
    | Page(page: Number)
    | FromTo(first: Number, last: Number)
    | ToNegative(first: Number, last: Number)
    | From(first: Number, blank: string)
    | To(blank: string, last: Number)
    | Nothing(blank: string)
    | Junk(text: string)

  predicate IsNumber(n: Number) {
    Blank(n.left) && Blank(n.right)
  }

  predicate IsSegment(s: Segment) {
    match s
    case Page(p) => IsNumber(p)
    case FromTo(a, b) => IsNumber(a) && IsNumber(b)
    case ToNegative(a, b) => IsNumber(a) && IsNumber(b) && !b.plus
    case From(a, blank) => IsNumber(a) && Blank(blank)
    case To(blank, b) => Blank(blank) && IsNumber(b)
    case Nothing(blank) => Blank(blank)
    case Junk(text) => ',' !in text && exists i :: 0 <= i < |text| && IsJunk(text[i])
  }

  /** No number, blank, sign or digit separator. */
  predicate IsJunk(c: char) {
    !IsSpace(c) && !IsDigit(c) && c != '+' && c != '-' && c != '_'
  }

  function Zeros(n: nat): string {
    if n == 0 then "" else "0" + Zeros(n - 1)
  }

  function Digits(n: Number): string {
    (if n.plus then "+" else "") + (Zeros(n.zeros) + Decimal(n.value))
  }

  function PrintNumber(n: Number): string {
    n.left + Digits(n) + n.right
  }

  function PrintSegment(s: Segment): string {
    match s
    case Page(p) => PrintNumber(p)
    case FromTo(a, b) => PrintNumber(a) + "-" + PrintNumber(b)
    case ToNegative(a, b) => PrintNumber(a) + "-" + (b.left + ("-" + Digits(b)) + b.right)
    case From(a, blank) => PrintNumber(a) + "-" + blank
    case To(blank, b) => blank + "-" + PrintNumber(b)
    case Nothing(blank) => blank
    case Junk(text) => text
  }

  /** The pages it means: a backward range is its first page, there is no page 0, and what is no page or range is nothing. */
  predicate Names(s: Segment, total: int, p: int) {
    && 1 <= p <= total
    && match s
       case Page(page) => p == page.value
       case FromTo(a, b) => 0 < a.value <= p && (p <= b.value || p == a.value)
       case ToNegative(a, _) => p == a.value
       case _ => false
  }

  ghost predicate Named(segments: seq<Segment>, total: int, p: int) {
    exists i :: 0 <= i < |segments| && Names(segments[i], total, p)
  }

  /** The part asks for exactly the pages the segment names. */
  ghost predicate AsksFor(part: string, s: Segment, total: int) {
    forall p :: p in PartPages(part, total) <==> Names(s, total, p)
  }

  function PrintSegments(segments: seq<Segment>): seq<string> {
    seq(|segments|, i requires 0 <= i < |segments| => PrintSegment(segments[i]))
  }

  predicate AllDigits(s: string) {
    s != "" && forall i :: 0 <= i < |s| ==> IsDigit(s[i])
  }

  lemma {:induction false} DecimalValue(n: nat)
    ensures AllDigits(Decimal(n)) && Value(Decimal(n)) == n
  {
    if n >= 10 {
      DecimalValue(n / 10);
      var s := Decimal(n);
      assert s[..|s| - 1] == Decimal(n / 10);
    } else {
      assert [Digit(n)][..0] == "";
    }
  }

  lemma {:induction false} ZeroInFront(s: string)
    requires AllDigits(s)
    ensures Value("0" + s) == Value(s) && AllDigits("0" + s)
    decreases |s|
  {
    var t := "0" + s;
    if |s| == 1 {
      assert t[..1] == "0" && "0"[..0] == "" && s[..0] == "";
    } else {
      assert t[..|t| - 1] == "0" + s[..|s| - 1];
      ZeroInFront(s[..|s| - 1]);
    }
  }

  lemma {:induction false} ZerosInFront(n: nat, s: string)
    requires AllDigits(s)
    ensures Value(Zeros(n) + s) == Value(s) && AllDigits(Zeros(n) + s)
  {
    if n == 0 {
      assert Zeros(n) + s == s;
    } else {
      ZerosInFront(n - 1, s);
      ZeroInFront(Zeros(n - 1) + s);
      Associative("0", Zeros(n - 1), s);
    }
  }

  /** Digits, perhaps behind a plus sign. */
  predicate IsSolid(s: string) {
    AllDigits(s) || (s != "" && s[0] == '+' && AllDigits(s[1..]))
  }

  lemma SolidParses(s: string)
    requires IsSolid(s)
    ensures Strip(s) == s && Int(s) == Some(Value(if s[0] == '+' then s[1..] else s))
    ensures ',' !in s && '-' !in s
  {
    SolidStrip(s);
  }

  lemma NumberDigits(n: Number)
    ensures IsSolid(Digits(n)) && Int(Digits(n)) == Some(n.value)
    ensures !n.plus ==> AllDigits(Digits(n)) && Value(Digits(n)) == n.value
    ensures ',' !in Digits(n) && '-' !in Digits(n)
  {
    DecimalValue(n.value);
    ZerosInFront(n.zeros, Decimal(n.value));
    var digits := Zeros(n.zeros) + Decimal(n.value);
    if n.plus {
      assert Digits(n) == "+" + digits && Digits(n)[1..] == digits;
    } else {
      assert Digits(n) == digits;
    }
    SolidParses(Digits(n));
  }

  lemma {:induction false} UnderscoreIsSkipped(a: string, b: string)
    requires AllDigits(a) && AllDigits(b)
    ensures Value(a + "_" + b) == Value(a + b)
    decreases |b|
  {
    var s, t := a + "_" + b, a + b;
    var n := |b| - 1;
    assert s[..|s| - 1] == a + "_" + b[..n] && t[..|t| - 1] == a + b[..n];
    if n == 0 {
      assert a + "_" + b[..n] == a + "_" && a + b[..n] == a;
      assert (a + "_")[..|a|] == a;
    } else {
      UnderscoreIsSkipped(a, b[..n]);
    }
  }

  /** One underscore between digits is skipped by `int`; one at an end, or two in a row, is an error. */
  lemma Underscores(a: string, b: string)
    requires AllDigits(a) && AllDigits(b)
    ensures Int(a + "_" + b) == Some(Value(a + b))
    ensures Int("_" + a) == Int(a + "_") == Int(a + "__" + b) == None
  {
    UnderscoreIsSkipped(a, b);
    SolidStrip(a + "_" + b);
    SolidStrip("_" + a);
    SolidStrip(a + "_");
    var twice := a + "__" + b;
    SolidStrip(twice);
    assert twice[|a|] == '_' && twice[|a| + 1] == '_';
  }

  /** Blanks around a text make no difference to `int`. */
  lemma IntPadded(left: string, s: string, right: string)
    requires Blank(left) && Blank(right)
    ensures Int(left + s + right) == Int(s)
  {
    StripPadded(left, s, right);
  }

  lemma NumberParses(n: Number)
    requires IsNumber(n)
    ensures Int(PrintNumber(n)) == Some(n.value) && ',' !in PrintNumber(n) && '-' !in PrintNumber(n)
  {
    NumberDigits(n);
    IntPadded(n.left, Digits(n), n.right);
    BlankHasNoMark(n.left);
    BlankHasNoMark(n.right);
  }

  lemma BlankHasNoMark(gap: string)
    requires Blank(gap)
    ensures ',' !in gap && '-' !in gap
  {
  }

  lemma {:induction false} FindFirst(a: string, c: char, b: string)
    requires c !in a
    ensures Find(a + [c] + b, c) == |a|
  {
    if a != "" {
      assert (a + [c] + b)[1..] == a[1..] + [c] + b;
      FindFirst(a[1..], c, b);
    }
  }

  lemma {:induction false} FindNone(a: string, c: char)
    requires c !in a
    ensures Find(a, c) == |a|
  {
    if a != "" {
      FindNone(a[1..], c);
    }
  }

  lemma SolidStrip(s: string)
    requires s != "" && !IsSpace(s[0]) && !IsSpace(s[|s| - 1])
    ensures Strip(s) == s
  {
  }

  lemma OnePage(s: string, n: nat, total: int)
    requires s != "" && Strip(s) == s && '-' !in s && Int(s) == Some(n)
    ensures forall p :: p in PartPages(s, total) <==> 1 <= p <= total && p == n
  {
    FindNone(s, '-');
  }

  lemma PageParses(p: Number, total: int)
    requires IsNumber(p)
    ensures AsksFor(PrintNumber(p), Page(p), total)
  {
    NumberDigits(p);
    SolidParses(Digits(p));
    OnePage(Digits(p), p.value, total);
    PaddedPart(p.left, Digits(p), p.right, total);
  }

  /** What a text with one dash that is not at a blank end asks for. */
  lemma DashParses(a: string, b: string, total: int)
    requires '-' !in a
    requires (a == "" || !IsSpace(a[0])) && (b == "" || !IsSpace(b[|b| - 1]))
    ensures PartPages(a + "-" + b, total) ==
      if Int(a).None? || Int(b).None? || Int(a).value <= 0 then {}
      else Clip(Int(a).value, Max(Int(a).value, Int(b).value), total)
  {
    var text := a + "-" + b;
    assert text[0] == if a == "" then '-' else a[0];
    assert text[|text| - 1] == if b == "" then '-' else b[|b| - 1];
    SolidStrip(text);
    FindFirst(a, '-', b);
    assert text[..|a|] == a && text[|a| + 1..] == b;
  }

  /** The same with blanks on both sides of both texts, and around a text that is blank. */
  lemma PaddedDash(left: string, a: string, b: string, right: string, total: int)
    requires Blank(left) && Blank(right) && '-' !in a
    requires (a == "" || !IsSpace(a[0])) && (b == "" || !IsSpace(b[|b| - 1]))
    ensures PartPages((left + a) + "-" + (b + right), total) ==
      if Int(a).None? || Int(b).None? || Int(a).value <= 0 then {}
      else Clip(Int(a).value, Max(Int(a).value, Int(b).value), total)
  {
    assert (left + a) + "-" + (b + right) == left + (a + "-" + b) + right;
    PaddedPart(left, a + "-" + b, right, total);
    DashParses(a, b, total);
  }

  lemma HalfPadded(n: Number)
    requires IsNumber(n)
    ensures Int(Digits(n) + n.right) == Int(n.left + Digits(n)) == Some(n.value)
  {
    NumberDigits(n);
    var digits := Digits(n);
    IntPaddedOnce(digits, n.right);
    IntPaddedOnce(digits, n.left);
  }

  lemma IntPaddedOnce(s: string, blank: string)
    requires Blank(blank)
    ensures Int(s + blank) == Int(blank + s) == Int(s)
  {
    IntPadded("", s, blank);
    IntPadded(blank, s, "");
    assert "" + s + blank == s + blank;
    assert blank + s + "" == blank + s;
  }

  lemma SolidEnds(n: Number)
    requires IsNumber(n)
    ensures !IsSpace((Digits(n) + n.right)[0])
    ensures !IsSpace((n.left + Digits(n))[|n.left + Digits(n)| - 1])
    ensures '-' !in Digits(n) + n.right
  {
    NumberDigits(n);
    BlankHasNoMark(n.right);
    var digits := Digits(n);
    assert !IsSpace(digits[0]) && !IsSpace(digits[|digits| - 1]);
  }

  lemma RangeParses(a: Number, b: Number, total: int)
    requires IsNumber(a) && IsNumber(b)
    ensures AsksFor(PrintSegment(FromTo(a, b)), FromTo(a, b), total)
  {
    HalfPadded(a);
    HalfPadded(b);
    SolidEnds(a);
    SolidEnds(b);
    PaddedDash(a.left, Digits(a) + a.right, b.left + Digits(b), b.right, total);
    Associative(a.left, Digits(a), a.right);
  }

  lemma MinusParses(digits: string)
    requires AllDigits(digits)
    ensures Int("-" + digits).Some? && Int("-" + digits).value + Value(digits) == 0
  {
    var text := "-" + digits;
    assert text[1..] == digits;
    SolidStrip(text);
  }

  lemma NegativeParses(n: Number)
    requires IsNumber(n) && !n.plus
    ensures var text := n.left + ("-" + Digits(n));
      Int(text).Some? && Int(text).value + n.value == 0 && !IsSpace(text[|text| - 1])
    ensures ',' !in "-" + Digits(n)
  {
    NumberDigits(n);
    var digits := Digits(n);
    MinusParses(digits);
    IntPaddedOnce("-" + digits, n.left);
    assert IsDigit(digits[|digits| - 1]);
  }

  lemma NegativeRangeParses(a: Number, b: Number, total: int)
    requires IsNumber(a) && IsNumber(b) && !b.plus
    ensures AsksFor(PrintSegment(ToNegative(a, b)), ToNegative(a, b), total)
  {
    HalfPadded(a);
    SolidEnds(a);
    NegativeParses(b);
    PaddedDash(a.left, Digits(a) + a.right, b.left + ("-" + Digits(b)), b.right, total);
    Associative(a.left, Digits(a), a.right);
  }

  lemma BlankParses(blank: string)
    requires Blank(blank)
    ensures Int("") == None
  {
  }

  lemma LackingParses(a: Number, blank: string, total: int)
    requires IsNumber(a) && Blank(blank)
    ensures PartPages(PrintSegment(From(a, blank)), total) == {}
    ensures PartPages(PrintSegment(To(blank, a)), total) == {}
  {
    HalfPadded(a);
    SolidEnds(a);
    BlankParses(blank);
    PaddedDash(a.left, Digits(a) + a.right, "", blank, total);
    Associative(a.left, Digits(a), a.right);
    PaddedDash(blank, "", a.left + Digits(a), a.right, total);
    assert "" + blank == blank && blank + "" == blank;
  }

  lemma {:induction false} StripKeeps(s: string, c: char)
    requires c in s && !IsSpace(c)
    ensures c in Strip(s)
  {
    var left := StripLeftSplits(s);
    var right := StripRightSplits(StripLeft(s));
    assert c !in left && c !in right;
  }

  lemma JunkIsNoInt(s: string, c: char)
    requires c in s && IsJunk(c)
    ensures Int(s) == None
  {
    StripKeeps(s, c);
    var t := Strip(s);
    assert c in t[1..] || c == t[0];
  }

  lemma JunkParses(text: string, c: char, total: int)
    requires c in text && IsJunk(c)
    ensures PartPages(text, total) == {}
  {
    StripKeeps(text, c);
    var chunk := Strip(text);
    var k := Find(chunk, '-');
    if k < |chunk| {
      assert chunk == chunk[..k] + [chunk[k]] + chunk[k + 1..];
      if c in chunk[..k] {
        JunkIsNoInt(chunk[..k], c);
      } else {
        JunkIsNoInt(chunk[k + 1..], c);
      }
    } else {
      JunkIsNoInt(chunk, c);
    }
  }

  lemma BlankIsNothing(blank: string, total: int)
    requires Blank(blank)
    ensures PartPages(blank, total) == {}
  {
    StripLeftBlank(blank, "");
    assert blank + "" == blank;
  }

  lemma SegmentParses(s: Segment, total: int)
    requires IsSegment(s)
    ensures AsksFor(PrintSegment(s), s, total)
  {
    match s
    case Page(p) => PageParses(p, total);
    case FromTo(a, b) => RangeParses(a, b, total);
    case ToNegative(a, b) => NegativeRangeParses(a, b, total);
    case From(a, blank) => LackingParses(a, blank, total);
    case To(blank, b) => LackingParses(b, blank, total);
    case Nothing(blank) => BlankIsNothing(blank, total);
    case Junk(text) =>
      var i :| 0 <= i < |text| && IsJunk(text[i]);
      JunkParses(text, text[i], total);
  }

  lemma SegmentHasNoComma(s: Segment)
    requires IsSegment(s)
    ensures ',' !in PrintSegment(s)
  {
    match s
    case Page(p) => NumberParses(p);
    case FromTo(a, b) => NumberParses(a); NumberParses(b);
    case ToNegative(a, b) => NumberParses(a); NegativeParses(b); BlankHasNoMark(b.left); BlankHasNoMark(b.right);
    case From(a, blank) => NumberParses(a); BlankHasNoMark(blank);
    case To(blank, b) => BlankHasNoMark(blank); NumberParses(b);
    case Nothing(blank) => BlankHasNoMark(blank);
    case Junk(text) =>
  }

  lemma SegmentsParse(segments: seq<Segment>, total: int)
    requires segments != [] && forall i :: 0 <= i < |segments| ==> IsSegment(segments[i])
    ensures forall p :: p in AllPages(Split(Join(PrintSegments(segments), ','), ','), total) <==> Named(segments, total, p)
  {
    var parts := PrintSegments(segments);
    forall i | 0 <= i < |parts|
      ensures ',' !in parts[i] && AsksFor(parts[i], segments[i], total)
    {
      SegmentHasNoComma(segments[i]);
      SegmentParses(segments[i], total);
    }
    SplitJoin(parts);
    PartsNamed(segments, parts, total);
  }

  lemma PartsNamed(segments: seq<Segment>, parts: seq<string>, total: int)
    requires |parts| == |segments| && forall i :: 0 <= i < |parts| ==> AsksFor(parts[i], segments[i], total)
    ensures forall p :: p in AllPages(parts, total) <==> Named(segments, total, p)
  {
    var sets := PartSets(parts, total);
    forall p
      ensures p in Union(sets) <==> Named(segments, total, p)
    {
      UnionHas(sets, p);
      forall i | 0 <= i < |parts|
        ensures p in sets[i] <==> Names(segments[i], total, p)
      {
        assert AsksFor(parts[i], segments[i], total);
      }
      if Named(segments, total, p) {
        var i :| 0 <= i < |segments| && Names(segments[i], total, p);
        assert p in sets[i];
      }
    }
  }

  /** Any list of segments, printed, selects the pages it names, or all if it names none that exist. */
  lemma PrintedSegmentsAreSelected(segments: seq<Segment>, total: int)
    requires segments != [] && forall i :: 0 <= i < |segments| ==> IsSegment(segments[i])
    requires total > 0
    ensures var pages := Pages(Join(PrintSegments(segments), ','), total);
      forall p :: p in pages <==> 1 <= p <= total && (Named(segments, total, p) || forall q :: !Named(segments, total, q))
  {
    SegmentsParse(segments, total);
    PagesAreTheSelection(Join(PrintSegments(segments), ','), total);
    var pages := AllPages(Split(Join(PrintSegments(segments), ','), ','), total);
    if forall q :: q !in pages {
      assert pages == {};
    }
  }

  /** A number as it is usually written. */
  function Plain(n: nat): Number {
    Number("", false, 0, n, "")
  }

  lemma PlainIsDecimal(n: nat)
    ensures PrintSegment(Page(Plain(n))) == Decimal(n)
  {
  }

  function AsSegments(xs: seq<int>): seq<Segment>
    requires forall i :: 0 <= i < |xs| ==> xs[i] >= 0
  {
    seq(|xs|, i requires 0 <= i < |xs| => Page(Plain(xs[i])))
  }

  lemma ListedPages(xs: seq<int>, total: int)
    requires forall i :: 0 <= i < |xs| ==> 1 <= xs[i] <= total
    ensures forall p :: Named(AsSegments(xs), total, p) <==> p in xs
  {
    forall p
      ensures Named(AsSegments(xs), total, p) <==> p in xs
    {
      forall i | 0 <= i < |xs|
        ensures Names(AsSegments(xs)[i], total, p) <==> p == xs[i]
      {
      }
      if p in xs {
        var i :| 0 <= i < |xs| && xs[i] == p;
        assert Names(AsSegments(xs)[i], total, p);
      }
    }
  }

  /** Round trip: a strictly increasing list of existing pages, printed and parsed, comes back. */
  lemma PrintedPagesComeBack(xs: seq<int>, total: int)
    requires xs != [] && Increasing(xs) && forall i :: 0 <= i < |xs| ==> 1 <= xs[i] <= total
    ensures Pages(Join(PrintSegments(AsSegments(xs)), ','), total) == xs
  {
    var pages := AllPages(Split(Join(PrintSegments(AsSegments(xs)), ','), ','), total);
    SegmentsParse(AsSegments(xs), total);
    ListedPages(xs, total);
    assert xs[0] in xs && xs[0] in pages;
    ListingIsUnique(xs, pages, total);
  }
}
