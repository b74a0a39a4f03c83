/**
 * The brace scanner that cuts JSON objects out of a growing buffer, and what it promises:
 * it is the only maximal split of the text, and cutting the text elsewhere changes nothing.
 */
module JsonScanner {
  import opened Wrappers
  import opened JsText

  /** What the scanner knows inside a document. */
  datatype Scan = Scan(depth: int, inString: bool, escaped: bool)

  const START := Scan(0, false, false)

  function Code(depth: int): Scan {
    Scan(depth, false, false)
  }

  function Advance(s: Scan, c: char): Scan {
    if s.inString then
      if s.escaped then s.(escaped := false)
      else if c == '\\' then s.(escaped := true)
      else if c == '"' then s.(inString := false)
      else s
    else if c == '"' then s.(inString := true)
    else if c == '{' then s.(depth := s.depth + 1)
    else if c == '}' then s.(depth := s.depth - 1)
    else s
  }

  function Run(s: Scan, text: string): Scan {
    if text == "" then s else Advance(Run(s, text[..|text| - 1]), text[|text| - 1])
  }

  /** Outside every string with all braces matched. */
  predicate Closed(s: Scan) {
    s.depth == 0 && !s.inString
  }

  /** A shortest brace-balanced text: it closes at its end and nowhere before. */
  ghost predicate IsDocument(d: string) {
    && d != ""
    && d[0] == '{'
    && Closed(Run(START, d))
    && forall k :: 0 < k < |d| ==> !Closed(Run(START, d[..k]))
  }

  /** A text the scanner cannot take anything from: nothing, not an object, or an object still open. */
  ghost predicate Stuck(rest: string) {
    rest == "" || (!IsSpace(rest[0]) && (rest[0] == '{' ==> NeverCloses(rest)))
  }

  ghost predicate NeverCloses(rest: string) {
    forall k :: 0 < k <= |rest| ==> !Closed(Run(START, rest[..k]))
  }

  datatype Parts = Parts(documents: seq<string>, remainder: string)

  function Prepend(documents: seq<string>, parts: Parts): Parts {
    Parts(documents + parts.documents, parts.remainder)
  }

  /** The least n >= k at which text[..n] closes, or 0. */
  function FirstClose(text: string, k: nat): (n: nat)
    requires 0 < k
    ensures n == 0 ==> forall j :: k <= j <= |text| ==> !Closed(Run(START, text[..j]))
    ensures n != 0 ==> k <= n <= |text| && Closed(Run(START, text[..n]))
    ensures n != 0 ==> forall j :: k <= j < n ==> !Closed(Run(START, text[..j]))
    decreases |text| - k
  {
    if k > |text| then 0
    else if Closed(Run(START, text[..k])) then k
    else FirstClose(text, k + 1)
  }

  function Extract(source: string): Parts
    decreases |source|
  {
    var text := TrimStart(source);
    if text == "" || text[0] != '{' then Parts([], text)
    else
      var n := FirstClose(text, 1);
      if n == 0 then Parts([], text)
      else
        TrimStartLength(source);
        Prepend([text[..n]], Extract(text[n..]))
  }

  // ---- the scanner loop ----

  lemma ExtractSpace(source: string, index: nat)
    requires index < |source| && IsSpace(source[index])
    ensures Extract(source[index..]) == Extract(source[index + 1..])
  {
    assert source[index..][1..] == source[index + 1..];
  }

  lemma PrependTwice(a: seq<string>, b: seq<string>, parts: Parts)
    ensures Prepend(a, Prepend(b, parts)) == Prepend(a + b, parts)
  {
    Associative(a, b, parts.documents);
  }

  lemma PrependNothing(documents: seq<string>, parts: Parts)
    ensures Prepend([], parts) == parts
    ensures Prepend(documents, Parts([], parts.remainder)) == Parts(documents, parts.remainder)
  {
  }

  lemma ClosesFirstAt(text: string, n: nat)
    requires 0 < n <= |text| && IsDocument(text[..n])
    ensures FirstClose(text, 1) == n
  {
    forall k | 0 < k < n
      ensures !Closed(Run(START, text[..k]))
    {
      assert text[..n][..k] == text[..k];
    }
  }

  lemma ExtractDocument(text: string, n: nat)
    requires 0 < n <= |text| && IsDocument(text[..n])
    ensures Extract(text) == Prepend([text[..n]], Extract(text[n..]))
  {
    assert text[0] == text[..n][0];
    assert TrimStart(text) == text;
    ClosesFirstAt(text, n);
  }

  lemma ExtractStuck(text: string)
    requires Stuck(text)
    ensures Extract(text) == Parts([], text)
  {
  }

  /** A document opened at start is still open just before index. */
  ghost predicate Open(source: string, start: int, index: int, scan: Scan) {
    && 0 <= start < index <= |source|
    && source[start] == '{'
    && scan.depth >= 1
    && (!scan.inString ==> !scan.escaped)
    && scan == Run(START, source[start..index])
    && (forall k :: start < k <= index ==> !Closed(Run(START, source[start..k])))
  }

  lemma OpeningBrace(source: string, index: nat)
    requires index < |source| && source[index] == '{'
    ensures Open(source, index, index + 1, Code(1))
  {
    assert source[index..index + 1] == "{";
    assert Run(START, "{") == Advance(Run(START, ""), '{');
  }

  lemma RunStep(source: string, start: nat, index: nat)
    requires start <= index < |source|
    ensures Run(START, source[start..index + 1]) == Advance(Run(START, source[start..index]), source[index])
  {
    var text := source[start..index + 1];
    assert text[..|text| - 1] == source[start..index];
  }

  lemma OpenStep(source: string, start: int, index: int, scan: Scan)
    requires Open(source, start, index, scan) && index < |source|
    ensures var next := Advance(scan, source[index]);
      if Closed(next) then Run(START, source[start..index + 1]) == next
      else Open(source, start, index + 1, next)
  {
    RunStep(source, start, index);
  }

  lemma DocumentEnds(source: string, start: nat, end: nat)
    requires start < end <= |source| && source[start] == '{'
    requires Closed(Run(START, source[start..end]))
    requires forall k :: start < k < end ==> !Closed(Run(START, source[start..k]))
    ensures Extract(source[start..]) == Prepend([source[start..end]], Extract(source[end..]))
  {
    var text := source[start..];
    var n := end - start;
    assert text[..n] == source[start..end];
    forall k | 0 < k < n
      ensures !Closed(Run(START, text[..n][..k]))
    {
      assert text[..n][..k] == source[start..start + k];
    }
    ExtractDocument(text, n);
    assert text[n..] == source[end..];
  }

  lemma ScanEnds(source: string, start: int, scan: Scan)
    requires Open(source, start, |source|, scan)
    ensures Extract(source[start..]) == Parts([], source[start..])
  {
    forall k | 0 < k <= |source| - start
      ensures !Closed(Run(START, source[start..][..k]))
    {
      assert source[start..][..k] == source[start..start + k];
    }
    ExtractStuck(source[start..]);
  }

  /** What the loop has done up to index: the documents behind it, and the one that is open, if any. */
  ghost predicate Scanned(source: string, documents: seq<string>, startIndex: int, index: int, scan: Scan) {
    && 0 <= index <= |source| && -1 <= startIndex <= index
    && Extract(source) == Prepend(documents, Extract(source[if startIndex < 0 then index else startIndex..]))
    && (startIndex >= 0 ==> Open(source, startIndex, index, scan))
  }

  lemma ScanStarts(source: string, scan: Scan)
    ensures Scanned(source, [], -1, 0, scan)
  {
    assert source[0..] == source;
    PrependNothing([], Extract(source));
  }

  lemma ScanOutside(source: string, documents: seq<string>, index: nat, scan: Scan)
    requires Scanned(source, documents, -1, index, scan) && index < |source|
    ensures source[index] == '{' ==> Scanned(source, documents, index, index + 1, Code(1))
    ensures IsSpace(source[index]) ==> Scanned(source, documents, -1, index + 1, scan)
  {
    if source[index] == '{' {
      OpeningBrace(source, index);
    } else if IsSpace(source[index]) {
      ExtractSpace(source, index);
    }
  }

  lemma ScanCloses(source: string, documents: seq<string>, startIndex: nat, index: nat, scan: Scan)
    requires index < |source| && Open(source, startIndex, index, scan)
    requires Closed(Run(START, source[startIndex..index + 1]))
    ensures Prepend(documents, Extract(source[startIndex..]))
         == Prepend(documents + [source[startIndex..index + 1]], Extract(source[index + 1..]))
  {
    DocumentEnds(source, startIndex, index + 1);
    PrependTwice(documents, [source[startIndex..index + 1]], Extract(source[index + 1..]));
  }

  lemma ScanInside(source: string, documents: seq<string>, startIndex: nat, index: nat, scan: Scan)
    requires Scanned(source, documents, startIndex, index, scan) && index < |source|
    ensures var next := Advance(scan, source[index]);
      if Closed(next) then Scanned(source, documents + [source[startIndex..index + 1]], -1, index + 1, next)
      else Scanned(source, documents, startIndex, index + 1, next)
  {
    OpenStep(source, startIndex, index, scan);
    if Closed(Advance(scan, source[index])) {
      ScanCloses(source, documents, startIndex, index, scan);
    }
  }

  lemma ScanStops(source: string, documents: seq<string>, startIndex: int, index: nat, scan: Scan)
    requires Scanned(source, documents, startIndex, index, scan)
    requires if startIndex >= 0 then index == |source|
             else index == |source| || (source[index] != '{' && !IsSpace(source[index]))
    ensures Extract(source) == Parts(documents, source[if startIndex < 0 then index else startIndex..])
  {
    var remainder := source[if startIndex < 0 then index else startIndex..];
    if startIndex >= 0 {
      ScanEnds(source, startIndex, scan);
    } else {
      ExtractStuck(remainder);
    }
    PrependNothing(documents, Parts([], remainder));
  }

  /** `extractJSONDocuments`: one pass over the source with five variables. */
  method ExtractJSONDocuments(source: string) returns (documents: seq<string>, remainder: string)
    ensures Parts(documents, remainder) == Extract(source)
  {
    documents := [];
    var startIndex: int := -1;
    var depth := 0;
    var inString := false;
    var escaped := false;
    var lastConsumedIndex := 0;
    var index := 0;
    ScanStarts(source, Scan(depth, inString, escaped));
    while index < |source|
      invariant Scanned(source, documents, startIndex, index, Scan(depth, inString, escaped))
      invariant startIndex < 0 ==> lastConsumedIndex == index && !inString && !escaped
      decreases |source| - index
    {
      var c := source[index];
      if startIndex < 0 {
        ScanOutside(source, documents, index, Scan(depth, inString, escaped));
        if c == '{' {
          startIndex := index;
          depth := 1;
          lastConsumedIndex := index;
        } else if !IsSpace(c) {
          break;
        } else {
          lastConsumedIndex := index + 1;
        }
        index := index + 1;
        continue;
      }
      ScanInside(source, documents, startIndex, index, Scan(depth, inString, escaped));
      if inString {
        if escaped {
          escaped := false;
        } else if c == '\\' {
          escaped := true;
        } else if c == '"' {
          inString := false;
        }
        index := index + 1;
        continue;
      }
      if c == '"' {
        inString := true;
        index := index + 1;
        continue;
      }
      if c == '{' {
        depth := depth + 1;
        index := index + 1;
        continue;
      }
      if c != '}' {
        index := index + 1;
        continue;
      }
      depth := depth - 1;
      if depth != 0 {
        index := index + 1;
        continue;
      }
      documents := documents + [source[startIndex..index + 1]];
      startIndex := -1;
      lastConsumedIndex := index + 1;
      index := index + 1;
    }
    ScanStops(source, documents, startIndex, index, Scan(depth, inString, escaped));
    remainder := source[if startIndex >= 0 then startIndex else lastConsumedIndex..];
  }

  // ---- losslessness and maximality ----

  /** gap, document, gap, document, ..., gap */
  function Weave(gaps: seq<string>, documents: seq<string>): string
    requires |gaps| == |documents| + 1
  {
    if documents == [] then gaps[0]
    else gaps[0] + documents[0] + Weave(gaps[1..], documents[1..])
  }

  ghost predicate AllBlank(gaps: seq<string>) {
    forall i :: 0 <= i < |gaps| ==> Blank(gaps[i])
  }

  ghost predicate AllDocuments(documents: seq<string>) {
    forall i :: 0 <= i < |documents| ==> IsDocument(documents[i])
  }

  /** text is documents separated by white space, then a remainder nothing more can be taken from. */
  ghost predicate SplitsInto(text: string, parts: Parts) {
    exists gaps: seq<string> :: Witness(text, gaps, parts)
  }

  /** White space and one document in front of a text whose parts are known. */
  lemma DocumentInFront(gap: string, document: string, tail: string, parts: Parts)
    requires Blank(gap) && IsDocument(document) && Extract(tail) == parts
    ensures Extract(gap + (document + tail)) == Prepend([document], parts)
  {
    var rest := document + tail;
    ExtractBlank(gap, rest);
    assert rest[..|document|] == document && rest[|document|..] == tail;
    ExtractDocument(rest, |document|);
  }

  lemma SplitStep(gap: string, document: string, gaps: seq<string>, documents: seq<string>, remainder: string)
    requires Blank(gap) && IsDocument(document) && |gaps| == |documents| + 1
    requires Extract(Weave(gaps, documents) + remainder) == Parts(documents, remainder)
    ensures Extract(Weave([gap] + gaps, [document] + documents) + remainder) == Parts([document] + documents, remainder)
  {
    WeaveFirst(gap, document, gaps, documents);
    Regroup(gap, document, Weave(gaps, documents), remainder);
    DocumentInFront(gap, document, Weave(gaps, documents) + remainder, Parts(documents, remainder));
  }

  lemma {:induction false} SplitIsFound(gaps: seq<string>, documents: seq<string>, remainder: string)
    requires |gaps| == |documents| + 1 && AllBlank(gaps) && AllDocuments(documents) && Stuck(remainder)
    ensures Extract(Weave(gaps, documents) + remainder) == Parts(documents, remainder)
    decreases |documents|
  {
    if documents == [] {
      ExtractBlank(gaps[0], remainder);
      ExtractStuck(remainder);
    } else {
      var gap, moreGaps := SplitFirst(gaps);
      var document, more := SplitFirst(documents);
      SplitIsFound(moreGaps, more, remainder);
      SplitStep(gap, document, moreGaps, more, remainder);
    }
  }

  lemma ExtractBlank(gap: string, s: string)
    requires Blank(gap)
    ensures Extract(gap + s) == Extract(s)
  {
    TrimStartBlank(gap, s);
  }

  /** One document off the front, when there is a whole one. */
  lemma ExtractFirst(text: string, t: string, n: nat)
    requires t == TrimStart(text) && t != "" && t[0] == '{' && n == FirstClose(t, 1) != 0
    ensures IsDocument(t[..n])
    ensures Extract(text) == Prepend([t[..n]], Extract(t[n..]))
  {
    forall k | 0 < k < n
      ensures !Closed(Run(START, t[..n][..k]))
    {
      assert t[..n][..k] == t[..k];
    }
  }

  lemma ExtractNone(text: string, t: string)
    requires t == TrimStart(text) && (t == "" || t[0] != '{' || FirstClose(t, 1) == 0)
    ensures Extract(text) == Parts([], t) && Stuck(t)
  {
    var gap := TrimStartSplits(text);
  }

  /** gaps witness that text splits into parts. */
  ghost predicate Witness(text: string, gaps: seq<string>, parts: Parts) {
    && AllDocuments(parts.documents)
    && Stuck(parts.remainder)
    && |gaps| == |parts.documents| + 1
    && AllBlank(gaps)
    && text == Weave(gaps, parts.documents) + parts.remainder
  }

  lemma {:induction false} ExtractSplits(text: string) returns (gaps: seq<string>)
    ensures Witness(text, gaps, Extract(text))
    decreases |text|
  {
    var gap := TrimStartSplits(text);
    var t := TrimStart(text);
    if t == "" || t[0] != '{' || FirstClose(t, 1) == 0 {
      ExtractNone(text, t);
      WitnessEnds(gap, t);
      gaps := [gap];
    } else {
      var n := FirstClose(t, 1);
      var document, tail := t[..n], t[n..];
      assert t == document + tail;
      ExtractFirst(text, t, n);
      var rest := ExtractSplits(tail);
      WitnessInFront(text, gap, document, tail, rest, Extract(tail), Extract(text));
      gaps := [gap] + rest;
    }
  }

  lemma WitnessInFront(text: string, gap: string, document: string, tail: string, gaps: seq<string>, parts: Parts, all: Parts)
    requires Witness(tail, gaps, parts) && Blank(gap) && IsDocument(document)
    requires text == gap + (document + tail) && all == Prepend([document], parts)
    ensures Witness(text, [gap] + gaps, all)
  {
    WitnessGrows(gap, document, tail, gaps, parts);
  }

  lemma WitnessEnds(gap: string, rest: string)
    requires Blank(gap) && Stuck(rest)
    ensures Witness(gap + rest, [gap], Parts([], rest))
  {
  }

  lemma WitnessGrows(gap: string, document: string, text: string, gaps: seq<string>, parts: Parts)
    requires Witness(text, gaps, parts) && Blank(gap) && IsDocument(document)
    ensures Witness(gap + (document + text), [gap] + gaps, Prepend([document], parts))
  {
    WeaveFirst(gap, document, gaps, parts.documents);
    DocumentsFirst(document, parts.documents);
    assert gap + document + Weave(gaps, parts.documents) + parts.remainder == gap + (document + text);
  }

  lemma WeaveFirst(gap: string, document: string, gaps: seq<string>, documents: seq<string>)
    requires |gaps| == |documents| + 1
    ensures Weave([gap] + gaps, [document] + documents) == gap + document + Weave(gaps, documents)
  {
    assert ([gap] + gaps)[1..] == gaps && ([document] + documents)[1..] == documents;
  }

  lemma DocumentsFirst(document: string, documents: seq<string>)
    requires IsDocument(document) && AllDocuments(documents)
    ensures AllDocuments([document] + documents)
  {
    var all := [document] + documents;
    forall i | 0 <= i < |all|
      ensures IsDocument(all[i])
    {
      if i > 0 {
        assert all[i] == documents[i - 1];
      }
    }
  }

  /** The scanner's answer is the one and only maximal split of its input. */
  lemma ExtractIsTheSplit(text: string, parts: Parts)
    ensures SplitsInto(text, parts) <==> parts == Extract(text)
  {
    if SplitsInto(text, parts) {
      var gaps: seq<string> :| Witness(text, gaps, parts);
      SplitIsFound(gaps, parts.documents, parts.remainder);
    }
    var gaps := ExtractSplits(text);
  }

  // ---- independence from chunk boundaries ----

  lemma {:induction false} TrimStartTwice(s: string)
    ensures TrimStart(TrimStart(s)) == TrimStart(s)
  {
    var gap := TrimStartSplits(s);
  }

  lemma FirstCloseOfPrefix(t: string, b: string)
    requires FirstClose(t, 1) != 0
    ensures FirstClose(t + b, 1) == FirstClose(t, 1)
  {
    forall k | 0 < k <= |t|
      ensures (t + b)[..k] == t[..k]
    {
    }
  }

  lemma ExtractTrimmed(a: string)
    ensures Extract(TrimStart(a)) == Extract(a)
  {
    TrimStartTwice(a);
  }

  lemma SameTrimmed(a: string, b: string)
    ensures Extract(TrimStart(a) + b) == Extract(a + b)
  {
    var t := TrimStart(a);
    TrimStartTwice(a);
    TrimStartAppend(a, b);
    TrimStartAppend(t, b);
    ExtractTrimmed(a + b);
    ExtractTrimmed(t + b);
  }

  /** The first document of a is the first of a + b, and b comes behind what follows it. */
  lemma SameFirst(a: string, b: string, n: nat) returns (document: string, tail: string)
    requires TrimStart(a) != "" && TrimStart(a)[0] == '{' && n == FirstClose(TrimStart(a), 1) != 0
    ensures Extract(a) == Prepend([document], Extract(tail)) && |tail| < |a|
    ensures Extract(a + b) == Prepend([document], Extract(tail + b))
  {
    var t := TrimStart(a);
    document, tail := t[..n], t[n..];
    TrimStartLength(a);
    TrimStartAppend(a, b);
    ExtractFirst(a, t, n);
    FirstCloseOfPrefix(t, b);
    ExtractFirst(a + b, t + b, n);
    assert (t + b)[..n] == document && (t + b)[n..] == tail + b;
  }

  /** Scanning a, keeping the remainder and scanning again with b added is scanning a + b. */
  lemma {:induction false} ExtractAppend(a: string, b: string)
    ensures Extract(a + b) == Prepend(Extract(a).documents, Extract(Extract(a).remainder + b))
    decreases |a|
  {
    var t := TrimStart(a);
    if t == "" || t[0] != '{' || FirstClose(t, 1) == 0 {
      ExtractNone(a, t);
      SameTrimmed(a, b);
    } else {
      var document, tail := SameFirst(a, b, FirstClose(t, 1));
      ExtractAppend(tail, b);
      PrependTwice([document], Extract(tail).documents, Extract(Extract(tail).remainder + b));
    }
  }

  /** Nothing is left behind: scanning the remainder alone finds no document and changes nothing. */
  lemma ExtractRemainder(text: string)
    ensures Extract(Extract(text).remainder) == Parts([], Extract(text).remainder)
  {
    var gaps := ExtractSplits(text);
    ExtractStuck(Extract(text).remainder);
  }

  lemma {:induction false} RunAppend(s: Scan, a: string, b: string)
    ensures Run(s, a + b) == Run(Run(s, a), b)
    decreases |b|
  {
    if b == "" {
      assert a + b == a;
    } else {
      assert (a + b)[..|a + b| - 1] == a + b[..|b| - 1];
      RunAppend(s, a, b[..|b| - 1]);
    }
  }
}
