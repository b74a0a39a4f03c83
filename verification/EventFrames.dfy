/**
 * The two server-sent-event readers: text is cut at blank lines as it arrives, and the `data:`
 * lines of a frame make one event. Only LF and CRLF end a line here, all white space after
 * `data:` is dropped, and the frame the stream ends in counts even without a blank line.
 */
module EventFrames {
  import opened Wrappers
  import opened JsText

  // ---- the two patterns and `split` ----

  /** Length of a match of `\r?\n` at the start of s, or 0. */
  function BreakLength(s: string): (n: nat)
    ensures n <= |s|
  {
    if s != "" && s[0] == '\n' then 1
    else if |s| > 1 && s[0] == '\r' && s[1] == '\n' then 2
    else 0
  }

  datatype Pattern = LineBreak | BlankLine

  /** Length of a match of `\r?\n` or of `\r?\n\r?\n` at the start of s, or 0. */
  function MatchLength(p: Pattern, s: string): (n: nat)
    ensures n <= |s|
  {
    var n := BreakLength(s);
    match p
    case LineBreak => n
    case BlankLine =>
      if n > 0 && BreakLength(s[n..]) > 0 then n + BreakLength(s[n..]) else 0
  }

  /** `s.split(p)`: cut at the leftmost match, then go on behind it. */
  function Split(p: Pattern, s: string): (pieces: seq<string>)
    ensures pieces != []
    decreases |s|
  {
    if s == "" then [""]
    else
      var n := MatchLength(p, s);
      if n > 0 then [""] + Split(p, s[n..])
      else Push([s[0]], Split(p, s[1..]))
  }

  /** s put in front of the first piece. */
  function Push(s: string, pieces: seq<string>): seq<string>
    requires pieces != []
  {
    [s + pieces[0]] + pieces[1..]
  }

  function Init(pieces: seq<string>): seq<string>
    requires pieces != []
  {
    pieces[..|pieces| - 1]
  }

  function Last(pieces: seq<string>): string
    requires pieces != []
  {
    pieces[|pieces| - 1]
  }

  lemma SplitUnfold(p: Pattern, s: string)
    requires s != ""
    ensures MatchLength(p, s) > 0 ==> Split(p, s) == [""] + Split(p, s[MatchLength(p, s)..])
    ensures MatchLength(p, s) == 0 ==> Split(p, s) == Push([s[0]], Split(p, s[1..]))
  {
  }

  lemma OnePiece(p: Pattern, s: string)
    requires s != "" && |Split(p, s)| == 1
    ensures |Split(p, s[1..])| == 1 && Split(p, s) == Push([s[0]], Split(p, s[1..]))
  {
    SplitUnfold(p, s);
  }

  lemma {:induction false} SplitWhole(p: Pattern, s: string)
    requires |Split(p, s)| == 1
    ensures Split(p, s) == [s]
    decreases |s|
  {
    if s != "" {
      OnePiece(p, s);
      SplitWhole(p, s[1..]);
      assert [s[0]] + s[1..] == s;
    }
  }

  /** Text without a match in front of t only lengthens the first piece of t. */
  lemma PushPush(a: string, b: string, pieces: seq<string>)
    requires pieces != []
    ensures Push(a, Push(b, pieces)) == Push(a + b, pieces)
  {
    assert a + (b + pieces[0]) == a + b + pieces[0];
  }

  /** No match of p starts inside x when t follows. */
  ghost predicate NoMatchIn(p: Pattern, x: string, t: string) {
    forall i :: 0 <= i < |x| ==> MatchLength(p, (x + t)[i..]) == 0
  }

  lemma NoMatchInTail(p: Pattern, x: string, t: string)
    requires x != "" && NoMatchIn(p, x, t)
    ensures MatchLength(p, x + t) == 0 && NoMatchIn(p, x[1..], t)
  {
    assert (x + t)[0..] == x + t;
    forall i | 0 <= i < |x[1..]|
      ensures MatchLength(p, (x[1..] + t)[i..]) == 0
    {
      assert (x[1..] + t)[i..] == (x + t)[i + 1..];
    }
  }

  lemma SkipOne(p: Pattern, x: string, t: string)
    requires x != "" && MatchLength(p, x + t) == 0 && Split(p, x[1..] + t) == Push(x[1..], Split(p, t))
    ensures Split(p, x + t) == Push(x, Split(p, t))
  {
    assert (x + t)[1..] == x[1..] + t;
    SplitUnfold(p, x + t);
    PushPush([x[0]], x[1..], Split(p, t));
    assert [x[0]] + x[1..] == x;
  }

  lemma {:induction false} SplitSkip(p: Pattern, x: string, t: string)
    requires NoMatchIn(p, x, t)
    ensures Split(p, x + t) == Push(x, Split(p, t))
    decreases |x|
  {
    if x == "" {
      assert x + t == t;
      assert "" + Split(p, t)[0] == Split(p, t)[0];
    } else {
      NoMatchInTail(p, x, t);
      SplitSkip(p, x[1..], t);
      SkipOne(p, x, t);
    }
  }

  lemma NoBlankLine(s: string)
    requires forall u, v :: 0 <= u < |s| && 0 <= v < |s| && s[u] == '\n' && s[v] == '\n' ==> u == v
    ensures MatchLength(BlankLine, s) == 0
  {
    var n := BreakLength(s);
    if n > 0 {
      assert s[n - 1] == '\n';
      assert '\n' !in s[n..];
    }
  }

  /** A text that a longer one completes to a blank line holds no blank line itself. */
  lemma UnfinishedSeparator(a: string, b: string)
    requires a != "" && MatchLength(BlankLine, a) == 0 && MatchLength(BlankLine, a + b) > 0
    ensures Split(BlankLine, a) == [a]
  {
    var n := BreakLength(a + b);
    forall k | 0 <= k < |a| && a[k] == '\n'
      ensures k == n - 1
    {
      UnfinishedBreak(a, b, k);
    }
    forall i | 0 <= i < |a|
      ensures MatchLength(BlankLine, (a + "")[i..]) == 0
    {
      assert a + "" == a;
      forall u, v | 0 <= u < |a[i..]| && 0 <= v < |a[i..]| && a[i..][u] == '\n' && a[i..][v] == '\n'
        ensures u == v
      {
        assert a[i + u] == a[i..][u] && a[i + v] == a[i..][v];
      }
      NoBlankLine(a[i..]);
    }
    SplitSkip(BlankLine, a, "");
    assert a + "" == a;
    assert Split(BlankLine, "") == [""];
  }

  lemma LongPrefixMatches(a: string, b: string)
    requires |a| >= MatchLength(BlankLine, a + b) > 0
    ensures MatchLength(BlankLine, a) > 0
  {
    var n := BreakLength(a + b);
    assert (a + b)[n..] == a[n..] + b;
    assert BreakLength(a) == n;
  }

  lemma UnfinishedBreak(a: string, b: string, k: nat)
    requires MatchLength(BlankLine, a) == 0 && MatchLength(BlankLine, a + b) > 0
    requires k < |a| && a[k] == '\n'
    ensures k == BreakLength(a + b) - 1
  {
    var n := BreakLength(a + b);
    var m := BreakLength((a + b)[n..]);
    if |a| >= n + m {
      LongPrefixMatches(a, b);
    }
    assert (a + b)[k] == a[k];
    assert m == 2 ==> (a + b)[n..][0] == '\r' == (a + b)[n];
  }

  /** One more piece, or more text in the first piece, in front of two lists glued together. */
  lemma GlueCons(s: string, pieces: seq<string>, tail: seq<string>)
    requires pieces != []
    ensures [s] + (Init(pieces) + tail) == Init([s] + pieces) + tail
    ensures Last([s] + pieces) == Last(pieces)
  {
  }

  lemma GluePush(s: string, pieces: seq<string>, tail: seq<string>)
    requires |pieces| > 1 && tail != []
    ensures Push(s, Init(pieces) + tail) == Init(Push(s, pieces)) + tail
    ensures Last(Push(s, pieces)) == Last(pieces)
  {
  }

  /** Splitting a, keeping the last piece and splitting again with b added is splitting a + b. */
  lemma {:induction false} SplitAppend(a: string, b: string)
    ensures Split(BlankLine, a + b) == Init(Split(BlankLine, a)) + Split(BlankLine, Last(Split(BlankLine, a)) + b)
    decreases |a|, 1
  {
    if a == "" {
      assert a + b == b && "" + b == b;
      assert Split(BlankLine, a) == [""];
    } else if MatchLength(BlankLine, a) > 0 {
      SplitAppendMatch(a, b);
    } else if MatchLength(BlankLine, a + b) > 0 {
      UnfinishedSeparator(a, b);
    } else {
      SplitAppendPush(a, b);
    }
  }

  lemma {:induction false} SplitAppendMatch(a: string, b: string)
    requires a != "" && MatchLength(BlankLine, a) > 0
    ensures Split(BlankLine, a + b) == Init(Split(BlankLine, a)) + Split(BlankLine, Last(Split(BlankLine, a)) + b)
    decreases |a|, 0
  {
    var t := a[MatchLength(BlankLine, a)..];
    var rest := Split(BlankLine, t);
    SplitAppend(t, b);
    MatchUnfoldBoth(a, b);
    GlueCons("", rest, Split(BlankLine, Last(rest) + b));
  }

  lemma MatchUnfoldBoth(a: string, b: string)
    requires a != "" && MatchLength(BlankLine, a) > 0
    ensures var t := a[MatchLength(BlankLine, a)..];
      && Split(BlankLine, a) == [""] + Split(BlankLine, t)
      && Split(BlankLine, a + b) == [""] + Split(BlankLine, t + b)
  {
    var n := MatchLength(BlankLine, a);
    MatchOfPrefix(a, b);
    assert (a + b)[n..] == a[n..] + b;
  }

  lemma {:induction false} SplitAppendPush(a: string, b: string)
    requires a != "" && MatchLength(BlankLine, a) == 0 == MatchLength(BlankLine, a + b)
    ensures Split(BlankLine, a + b) == Init(Split(BlankLine, a)) + Split(BlankLine, Last(Split(BlankLine, a)) + b)
    decreases |a|, 0
  {
    if |Split(BlankLine, a[1..])| == 1 {
      SplitStaysWhole(a);
    } else {
      SplitAppend(a[1..], b);
      SplitUnfoldBoth(a, b);
      var rest := Split(BlankLine, a[1..]);
      GluePush([a[0]], rest, Split(BlankLine, Last(rest) + b));
    }
  }

  lemma SplitStaysWhole(a: string)
    requires a != "" && MatchLength(BlankLine, a) == 0 && |Split(BlankLine, a[1..])| == 1
    ensures Split(BlankLine, a) == [a]
  {
    SplitWhole(BlankLine, a[1..]);
    assert [a[0]] + a[1..] == a;
  }

  lemma SplitUnfoldBoth(a: string, b: string)
    requires a != "" && MatchLength(BlankLine, a) == 0 == MatchLength(BlankLine, a + b)
    ensures Split(BlankLine, a) == Push([a[0]], Split(BlankLine, a[1..]))
    ensures Split(BlankLine, a + b) == Push([a[0]], Split(BlankLine, a[1..] + b))
  {
    assert (a + b)[1..] == a[1..] + b;
  }

  lemma MatchOfPrefix(a: string, b: string)
    requires MatchLength(BlankLine, a) > 0
    ensures MatchLength(BlankLine, a + b) == MatchLength(BlankLine, a)
  {
    var n := BreakLength(a);
    assert BreakLength(a + b) == n;
    assert (a + b)[n..] == a[n..] + b;
  }

  /** No match begins anywhere in the first n characters of s. */
  ghost predicate NoMatchBefore(p: Pattern, s: string, n: nat) {
    n <= |s| && forall i :: 0 <= i < n ==> MatchLength(p, s[i..]) == 0
  }

  /** first is what stands in s before its first match. */
  ghost predicate CutsOff(p: Pattern, s: string, first: string) {
    NoMatchBefore(p, s, |first|) && s[..|first|] == first && MatchLength(p, s[|first|..]) > 0
  }

  function BehindMatch(p: Pattern, s: string, k: nat): string
    requires k <= |s|
  {
    s[k..][MatchLength(p, s[k..])..]
  }

  /** Each piece runs up to the first match there is, the match is dropped, the last piece runs to the end. */
  ghost predicate CutAtMatches(p: Pattern, s: string, pieces: seq<string>) {
    && pieces != []
    && if |pieces| == 1 then pieces[0] == s && NoMatchBefore(p, s, |s|)
       else CutsOff(p, s, pieces[0]) && CutAtMatches(p, BehindMatch(p, s, |pieces[0]|), pieces[1..])
  }

  lemma CutMore(p: Pattern, s: string, first: string, rest: seq<string>)
    requires rest != []
    ensures CutAtMatches(p, s, [first] + rest) <==> CutsOff(p, s, first) && CutAtMatches(p, BehindMatch(p, s, |first|), rest)
  {
    assert ([first] + rest)[1..] == rest;
  }

  lemma PushOntoEmpty(s: string, rest: seq<string>)
    ensures Push(s, [""] + rest) == [s] + rest
  {
    assert s + "" == s;
  }

  lemma WholePiece(p: Pattern, s: string)
    requires NoMatchBefore(p, s, |s|)
    ensures Split(p, s) == [s]
  {
    assert s + "" == s;
    SplitSkip(p, s, "");
    assert Split(p, "") == [""] + [];
    PushOntoEmpty(s, []);
  }

  lemma FirstPiece(p: Pattern, first: string, t: string)
    requires NoMatchBefore(p, first + t, |first|) && MatchLength(p, t) > 0
    ensures Split(p, first + t) == [first] + Split(p, t[MatchLength(p, t)..])
  {
    SplitSkip(p, first, t);
    SplitUnfold(p, t);
    PushOntoEmpty(first, Split(p, t[MatchLength(p, t)..]));
  }

  lemma FirstCut(p: Pattern, s: string, first: string)
    requires CutsOff(p, s, first)
    ensures Split(p, s) == [first] + Split(p, BehindMatch(p, s, |first|))
  {
    assert s == first + s[|first|..];
    FirstPiece(p, first, s[|first|..]);
  }

  lemma {:induction false} CutIsSplit(p: Pattern, s: string, pieces: seq<string>)
    requires CutAtMatches(p, s, pieces)
    ensures pieces == Split(p, s)
    decreases |pieces|
  {
    if |pieces| == 1 {
      WholePiece(p, s);
      assert pieces == [s];
    } else {
      var first, rest := SplitFirst(pieces);
      CutMore(p, s, first, rest);
      CutIsSplit(p, BehindMatch(p, s, |first|), rest);
      FirstCut(p, s, first);
    }
  }

  lemma {:induction false} SplitCuts(p: Pattern, s: string)
    ensures CutAtMatches(p, s, Split(p, s))
    decreases |s|
  {
    if s != "" {
      var n := MatchLength(p, s);
      SplitUnfold(p, s);
      if n > 0 {
        SplitCuts(p, s[n..]);
        CutHere(p, s, Split(p, s[n..]));
      } else {
        SplitCuts(p, s[1..]);
        CutLater(p, s, Split(p, s[1..]));
      }
    }
  }

  lemma CutHere(p: Pattern, s: string, rest: seq<string>)
    requires MatchLength(p, s) > 0 && CutAtMatches(p, s[MatchLength(p, s)..], rest)
    ensures CutAtMatches(p, s, [""] + rest)
  {
    assert s[0..] == s && s[..0] == "";
    CutMore(p, s, "", rest);
  }

  lemma NoMatchLater(p: Pattern, s: string, n: nat)
    requires s != "" && MatchLength(p, s) == 0 && NoMatchBefore(p, s[1..], n)
    ensures NoMatchBefore(p, s, n + 1)
  {
    forall i | 0 <= i < n + 1
      ensures MatchLength(p, s[i..]) == 0
    {
      if i == 0 {
        assert s[0..] == s;
      } else {
        assert s[i..] == s[1..][i - 1..];
      }
    }
  }

  lemma CutsOffLater(p: Pattern, s: string, first: string)
    requires s != "" && MatchLength(p, s) == 0 && CutsOff(p, s[1..], first)
    ensures CutsOff(p, s, [s[0]] + first)
    ensures BehindMatch(p, s, |first| + 1) == BehindMatch(p, s[1..], |first|)
  {
    var k := |first|;
    NoMatchLater(p, s, k);
    assert s[..k + 1] == [s[0]] + s[1..][..k];
    assert s[k + 1..] == s[1..][k..];
  }

  lemma CutLater(p: Pattern, s: string, pieces: seq<string>)
    requires s != "" && MatchLength(p, s) == 0 && CutAtMatches(p, s[1..], pieces)
    ensures CutAtMatches(p, s, Push([s[0]], pieces))
  {
    if |pieces| == 1 {
      NoMatchLater(p, s, |s| - 1);
      assert s == [s[0]] + s[1..];
    } else {
      CutsOffLater(p, s, pieces[0]);
      CutMore(p, s, [s[0]] + pieces[0], pieces[1..]);
    }
  }

  /** `split` is the one way to cut a text at its matches, from left to right. */
  lemma SplitIsTheCut(p: Pattern, s: string, pieces: seq<string>)
    ensures CutAtMatches(p, s, pieces) <==> pieces == Split(p, s)
  {
    if CutAtMatches(p, s, pieces) {
      CutIsSplit(p, s, pieces);
    }
    SplitCuts(p, s);
  }

  // ---- one frame ----

  const DATA := "data:"

  predicate IsDataLine(line: string) {
    DATA <= line
  }

  /** The values of the data lines, in order. */
  function DataValues(lines: seq<string>): seq<string> {
    if lines == [] then []
    else (if IsDataLine(lines[0]) then [TrimStart(lines[0][|DATA|..])] else []) + DataValues(lines[1..])
  }

  /** `parts.join("\n")` */
  function JoinLines(parts: seq<string>): string {
    if parts == [] then ""
    else if |parts| == 1 then parts[0]
    else parts[0] + "\n" + JoinLines(parts[1..])
  }

  function FrameData(frame: string): string {
    Trim(JoinLines(DataValues(Split(LineBreak, frame))))
  }

  /** parse stands for `JSON.parse` (None: it throws); accept for the filter on the event type. */
  function Event<E>(parse: string -> Option<E>, accept: E -> bool, data: string): seq<E> {
    if data == "" then []
    else
      match parse(data)
      case None => []
      case Some(e) => if accept(e) then [e] else []
  }

  function Deliver<E>(parse: string -> Option<E>, accept: E -> bool, frames: seq<string>): seq<E> {
    if frames == [] then []
    else Event(parse, accept, FrameData(frames[0])) + Deliver(parse, accept, frames[1..])
  }

  lemma DeliverCons<E>(parse: string -> Option<E>, accept: E -> bool, frame: string, frames: seq<string>)
    ensures Deliver(parse, accept, [frame] + frames) == Event(parse, accept, FrameData(frame)) + Deliver(parse, accept, frames)
  {
    assert ([frame] + frames)[1..] == frames;
  }

  lemma DeliverMore<E>(parse: string -> Option<E>, accept: E -> bool, frame: string, rest: seq<string>, b: seq<string>)
    requires Deliver(parse, accept, rest + b) == Deliver(parse, accept, rest) + Deliver(parse, accept, b)
    ensures Deliver(parse, accept, [frame] + rest + b) == Deliver(parse, accept, [frame] + rest) + Deliver(parse, accept, b)
  {
    DeliverCons(parse, accept, frame, rest);
    DeliverCons(parse, accept, frame, rest + b);
    Associative([frame], rest, b);
    Associative(Event(parse, accept, FrameData(frame)), Deliver(parse, accept, rest), Deliver(parse, accept, b));
  }

  lemma {:induction false} DeliverAppend<E>(parse: string -> Option<E>, accept: E -> bool, a: seq<string>, b: seq<string>)
    ensures Deliver(parse, accept, a + b) == Deliver(parse, accept, a) + Deliver(parse, accept, b)
    decreases |a|
  {
    if a == [] {
      assert a + b == b;
    } else {
      var frame, rest := SplitFirst(a);
      DeliverAppend(parse, accept, rest, b);
      DeliverMore(parse, accept, frame, rest, b);
    }
  }

  lemma DeliverSnoc<E>(parse: string -> Option<E>, accept: E -> bool, frames: seq<string>, i: nat)
    requires i < |frames|
    ensures Deliver(parse, accept, frames[..i + 1])
         == Deliver(parse, accept, frames[..i]) + Event(parse, accept, FrameData(frames[i]))
  {
    assert frames[..i + 1] == frames[..i] + [frames[i]];
    DeliverAppend(parse, accept, frames[..i], [frames[i]]);
    assert [frames[i]][1..] == [];
    assert Deliver(parse, accept, [frames[i]]) == Event(parse, accept, FrameData(frames[i])) + [];
  }

  // ---- the reader ----

  /** The closure `consumeFrames` with the buffer it works on and the events it hands out. */
  class FrameReader<E> {
    const parse: string -> Option<E>
    const accept: E -> bool
    var buffer: string
    var delivered: seq<E>

    constructor (parse: string -> Option<E>, accept: E -> bool)
      ensures this.parse == parse && this.accept == accept
      ensures buffer == "" && delivered == []
    {
      this.parse := parse;
      this.accept := accept;
      buffer := "";
      delivered := [];
    }

    /** rest: what the decoder still holds when the stream ends. */
    method ConsumeFrames(flush: bool, rest: string)
      modifies this
      ensures flush ==> buffer == ""
      ensures flush ==> delivered == old(delivered) + Deliver(parse, accept, Split(BlankLine, old(buffer) + rest))
      ensures !flush ==> buffer == Last(Split(BlankLine, old(buffer)))
      ensures !flush ==> delivered == old(delivered) + Deliver(parse, accept, Init(Split(BlankLine, old(buffer))))
    {
      if flush {
        buffer := buffer + rest;
      }
      var frames := Split(BlankLine, buffer);
      if flush {
        buffer := "";
      } else {
        buffer := Last(frames);
        frames := Init(frames);
      }
      DeliverFrames(frames);
    }

    /** The loop over the finished frames. */
    method DeliverFrames(frames: seq<string>)
      modifies this`delivered
      ensures delivered == old(delivered) + Deliver(parse, accept, frames)
    {
      var i := 0;
      assert frames[..0] == [];
      while i < |frames|
        invariant 0 <= i <= |frames|
        invariant delivered == old(delivered) + Deliver(parse, accept, frames[..i])
      {
        DeliverSnoc(parse, accept, frames, i);
        var data := FrameData(frames[i]);
        i := i + 1;
        if data == "" {
          continue;
        }
        var parsed := parse(data);
        if parsed.Some? {
          if accept(parsed.value) {
            delivered := delivered + [parsed.value];
          }
        }
      }
      assert frames[..i] == frames;
    }
  }

  /**
   * The read loop of both stream functions. ended: the stream reported `done`, with rest left in
   * the decoder; otherwise a read threw after these chunks and nothing is flushed.
   */
  method StreamEvents<E>(parse: string -> Option<E>, accept: E -> bool, chunks: seq<string>, ended: bool, rest: string)
    returns (events: seq<E>)
    ensures ended ==> events == Deliver(parse, accept, Split(BlankLine, Concat(chunks) + rest))
    ensures !ended ==> events == Deliver(parse, accept, Init(Split(BlankLine, Concat(chunks))))
    ensures ReadsPrinted(parse, accept, if ended then Concat(chunks) + rest else Concat(chunks), ended, events)
  {
    var reader := new FrameReader(parse, accept);
    var i := 0;
    assert Split(BlankLine, "") == [""];
    while i < |chunks|
      invariant 0 <= i <= |chunks|
      invariant reader.parse == parse && reader.accept == accept
      invariant Arrived(parse, accept, Concat(chunks[..i]), reader.buffer, reader.delivered)
    {
      assert chunks[..i + 1] == chunks[..i] + [chunks[i]];
      ConcatSnoc(chunks[..i], chunks[i]);
      FramesStep(parse, accept, Concat(chunks[..i]), chunks[i]);
      reader.buffer := reader.buffer + chunks[i];
      reader.ConsumeFrames(false, "");
      i := i + 1;
    }
    assert chunks[..i] == chunks;
    if ended {
      DeliverEnd(parse, accept, Concat(chunks), rest);
      reader.ConsumeFrames(true, rest);
    }
    events := reader.delivered;
    PrintedIsRead(parse, accept, if ended then Concat(chunks) + rest else Concat(chunks), ended);
  }

  /** What a reader holds and has handed out when text has arrived. */
  ghost predicate Arrived<E>(parse: string -> Option<E>, accept: E -> bool, text: string, buffer: string, delivered: seq<E>) {
    && buffer == Last(Split(BlankLine, text))
    && delivered == Deliver(parse, accept, Init(Split(BlankLine, text)))
  }

  lemma FramesStep<E>(parse: string -> Option<E>, accept: E -> bool, text: string, chunk: string)
    ensures var kept := Split(BlankLine, Last(Split(BlankLine, text)) + chunk);
      && Last(Split(BlankLine, text + chunk)) == Last(kept)
      && Deliver(parse, accept, Init(Split(BlankLine, text + chunk)))
         == Deliver(parse, accept, Init(Split(BlankLine, text))) + Deliver(parse, accept, Init(kept))
  {
    var kept := Split(BlankLine, Last(Split(BlankLine, text)) + chunk);
    SplitAppend(text, chunk);
    assert Init(Init(Split(BlankLine, text)) + kept) == Init(Split(BlankLine, text)) + Init(kept);
    DeliverAppend(parse, accept, Init(Split(BlankLine, text)), Init(kept));
  }

  lemma DeliverEnd<E>(parse: string -> Option<E>, accept: E -> bool, text: string, rest: string)
    ensures Deliver(parse, accept, Split(BlankLine, text + rest))
      == Deliver(parse, accept, Init(Split(BlankLine, text)))
       + Deliver(parse, accept, Split(BlankLine, Last(Split(BlankLine, text)) + rest))
  {
    SplitAppend(text, rest);
    DeliverAppend(parse, accept, Init(Split(BlankLine, text)), Split(BlankLine, Last(Split(BlankLine, text)) + rest));
  }

  // ---- agreement with a writer ----

  /** A line a server writes: a data line with any padding after the colon, or another field or comment. */
  datatype Line = Data(pad: string, payload: string) | Note(text: string)

  /** A frame line by line, each line with its line break, the last followed by a blank line. */
  datatype Frame =
    | Final(line: Line, eol: string, blank: string)
    | More(line: Line, eol: string, rest: Frame)

  function LineText(l: Line): string {
    match l
    case Data(pad, payload) => "data:" + pad + payload
    case Note(text) => text
  }

  predicate IsEol(s: string) {
    s == "\n" || s == "\r\n"
  }

  /** Not empty, no line feed inside, no carriage return at the end. */
  predicate IsLineText(s: string) {
    s != "" && '\n' !in s && s[|s| - 1] != '\r'
  }

  predicate ValidLine(l: Line) {
    && IsLineText(LineText(l))
    && match l
       case Data(pad, payload) => Blank(pad) && (payload != "" ==> !IsSpace(payload[0]))
       case Note(text) => !IsDataLine(text)
  }

  predicate ValidFrame(f: Frame) {
    && ValidLine(f.line)
    && IsEol(f.eol)
    && (if f.Final? then IsEol(f.blank) else ValidFrame(f.rest))
  }

  function Content(f: Frame): string {
    if f.Final? then LineText(f.line) else LineText(f.line) + f.eol + Content(f.rest)
  }

  function PrintFrame(f: Frame): string {
    if f.Final? then LineText(f.line) + (f.eol + f.blank)
    else LineText(f.line) + f.eol + PrintFrame(f.rest)
  }

  function FrameLines(f: Frame): seq<string> {
    if f.Final? then [LineText(f.line)] else [LineText(f.line)] + FrameLines(f.rest)
  }

  function Payloads(f: Frame): seq<string> {
    var mine := if f.line.Data? then [f.line.payload] else [];
    if f.Final? then mine else mine + Payloads(f.rest)
  }

  lemma SplitLine(p: Pattern, line: string, t: string)
    requires IsLineText(line)
    ensures Split(p, line + t) == Push(line, Split(p, t))
  {
    forall i | 0 <= i < |line|
      ensures MatchLength(p, (line + t)[i..]) == 0
    {
      assert BreakLength((line + t)[i..]) == 0;
    }
    SplitSkip(p, line, t);
  }

  lemma SplitEol(eol: string, t: string)
    requires IsEol(eol) && BreakLength(t) == 0
    ensures Split(BlankLine, eol + t) == Push(eol, Split(BlankLine, t))
    ensures Split(LineBreak, eol + t) == [""] + Split(LineBreak, t)
  {
    assert (eol + t)[|eol|..] == t;
    forall i | 0 <= i < |eol|
      ensures MatchLength(BlankLine, (eol + t)[i..]) == 0
    {
      var n := BreakLength((eol + t)[i..]);
      assert n == |eol| - i;
      assert (eol + t)[i..][n..] == t;
    }
    SplitSkip(BlankLine, eol, t);
  }

  lemma StartsLine(line: string, t: string)
    requires IsLineText(line)
    ensures BreakLength(line + t) == 0
  {
    if |line| > 1 {
      assert (line + t)[1] == line[1];
    }
  }

  lemma FinalIsCut(line: string, eol: string, blank: string, rest: string)
    requires IsLineText(line) && IsEol(eol) && IsEol(blank)
    ensures Split(BlankLine, line + (eol + (blank + rest))) == [line] + Split(BlankLine, rest)
  {
    var t := eol + (blank + rest);
    assert t[|eol|..] == blank + rest;
    assert MatchLength(BlankLine, t) == |eol| + |blank|;
    assert t[|eol| + |blank|..] == rest;
    SplitLine(BlankLine, line, t);
    SplitUnfold(BlankLine, t);
    PushOntoEmpty(line, Split(BlankLine, rest));
  }

  lemma FrameText(f: Frame, rest: string)
    ensures f.Final? ==> PrintFrame(f) + rest == LineText(f.line) + (f.eol + (f.blank + rest))
    ensures f.More? ==> PrintFrame(f) + rest == LineText(f.line) + (f.eol + (PrintFrame(f.rest) + rest))
  {
  }

  lemma PushTwice(a: string, b: string, content: string, rest: seq<string>)
    ensures Push(a, Push(b, [content] + rest)) == [a + b + content] + rest
  {
    assert a + (b + content) == a + b + content;
  }

  lemma {:induction false} FrameIsCut(f: Frame, rest: string)
    requires ValidFrame(f)
    ensures Split(BlankLine, PrintFrame(f) + rest) == [Content(f)] + Split(BlankLine, rest)
    decreases f
  {
    var line := LineText(f.line);
    FrameText(f, rest);
    if f.Final? {
      FinalIsCut(line, f.eol, f.blank, rest);
    } else {
      var t := PrintFrame(f.rest) + rest;
      FrameIsCut(f.rest, rest);
      FrameStarts(f.rest, rest);
      SplitEol(f.eol, t);
      SplitLine(BlankLine, line, f.eol + t);
      PushTwice(line, f.eol, Content(f.rest), Split(BlankLine, rest));
    }
  }

  lemma FrameStarts(f: Frame, rest: string)
    requires ValidFrame(f)
    ensures BreakLength(PrintFrame(f) + rest) == 0 && BreakLength(Content(f)) == 0
  {
    var line := LineText(f.line);
    if f.Final? {
      assert PrintFrame(f) + rest == line + (f.eol + f.blank + rest);
      StartsLine(line, f.eol + f.blank + rest);
      StartsLine(line, "");
      assert line + "" == line;
    } else {
      assert PrintFrame(f) + rest == line + (f.eol + PrintFrame(f.rest) + rest);
      StartsLine(line, f.eol + PrintFrame(f.rest) + rest);
      assert Content(f) == line + (f.eol + Content(f.rest));
      StartsLine(line, f.eol + Content(f.rest));
    }
  }

  lemma CutBehindLine(line: string, u: string, rest: seq<string>)
    requires IsLineText(line) && Split(LineBreak, u) == [""] + rest
    ensures Split(LineBreak, line + u) == [line] + rest
  {
    SplitLine(LineBreak, line, u);
    PushOntoEmpty(line, rest);
  }

  lemma LineIsCut(line: string, eol: string, t: string)
    requires IsLineText(line) && IsEol(eol) && BreakLength(t) == 0
    ensures Split(LineBreak, line + eol + t) == [line] + Split(LineBreak, t)
  {
    SplitEol(eol, t);
    CutBehindLine(line, eol + t, Split(LineBreak, t));
    Associative(line, eol, t);
  }

  lemma {:induction false} ContentIsLines(f: Frame)
    requires ValidFrame(f)
    ensures Split(LineBreak, Content(f)) == FrameLines(f)
    decreases f
  {
    var line := LineText(f.line);
    if f.Final? {
      SplitLine(LineBreak, line, "");
      assert line + "" == line;
      assert Split(LineBreak, "") == [""];
    } else {
      ContentIsLines(f.rest);
      FrameStarts(f.rest, "");
      LineIsCut(line, f.eol, Content(f.rest));
    }
  }

  lemma DataLine(pad: string, payload: string)
    requires Blank(pad) && TrimStart(payload) == payload
    ensures TrimStart((DATA + (pad + payload))[|DATA|..]) == payload
  {
    assert (DATA + (pad + payload))[|DATA|..] == pad + payload;
    TrimStartBlank(pad, payload);
  }

  lemma DataLineValue(l: Line)
    requires ValidLine(l)
    ensures l.Data? ==> IsDataLine(LineText(l)) && TrimStart(LineText(l)[|DATA|..]) == l.payload
  {
    if l.Data? {
      DataLine(l.pad, l.payload);
      Associative(DATA, l.pad, l.payload);
    }
  }

  lemma {:induction false} LinesArePayloads(f: Frame)
    requires ValidFrame(f)
    ensures DataValues(FrameLines(f)) == Payloads(f)
    decreases f
  {
    DataLineValue(f.line);
    if f.Final? {
      assert FrameLines(f)[1..] == [];
    } else {
      LinesArePayloads(f.rest);
      assert FrameLines(f)[1..] == FrameLines(f.rest);
    }
  }

  function PrintFrames(fs: seq<Frame>): string {
    if fs == [] then "" else PrintFrame(fs[0]) + PrintFrames(fs[1..])
  }

  function Contents(fs: seq<Frame>): seq<string> {
    if fs == [] then [] else Contents(fs[..|fs| - 1]) + [Content(fs[|fs| - 1])]
  }

  /** Each payload on a line of its own, with a line feed in front of it. */
  function OnLines(payloads: seq<string>): string {
    if payloads == [] then "" else OnLines(payloads[..|payloads| - 1]) + "\n" + payloads[|payloads| - 1]
  }

  /** The text the data lines of a frame spell: the payloads with line feeds between them, trimmed. */
  function Spelled(f: Frame): string {
    var text := OnLines(Payloads(f));
    if text == "" then "" else Trim(text[1..])
  }

  lemma OnLinesSnoc(payloads: seq<string>, last: string)
    ensures OnLines(payloads + [last]) == OnLines(payloads) + "\n" + last
  {
    assert (payloads + [last])[..|payloads|] == payloads;
  }

  lemma {:induction false} LinesJoined(payloads: seq<string>)
    requires payloads != []
    ensures OnLines(payloads) == "\n" + JoinLines(payloads)
    decreases |payloads|
  {
    var init, last := SplitLast(payloads);
    OnLinesSnoc(init, last);
    if init == [] {
      assert payloads == [last];
    } else {
      LinesJoined(init);
      JoinSnoc(init, last);
      Associative("\n", JoinLines(init), "\n" + last);
      Associative("\n" + JoinLines(init), "\n", last);
    }
  }

  lemma {:induction false} JoinSnoc(payloads: seq<string>, last: string)
    requires payloads != []
    ensures JoinLines(payloads + [last]) == JoinLines(payloads) + ("\n" + last)
    decreases |payloads|
  {
    if |payloads| == 1 {
      assert payloads + [last] == [payloads[0], last];
      assert [payloads[0], last][1..] == [last];
    } else {
      assert (payloads + [last])[1..] == payloads[1..] + [last];
      JoinSnoc(payloads[1..], last);
      Regroup(payloads[0], "\n", JoinLines(payloads[1..]), "\n" + last);
    }
  }

  /** What the reader takes from a frame is what its data lines spell. */
  lemma FrameSpells(f: Frame)
    requires ValidFrame(f)
    ensures FrameData(Content(f)) == Spelled(f)
  {
    ContentIsLines(f);
    LinesArePayloads(f);
    SpelledJoins(Payloads(f));
  }

  lemma SpelledJoins(payloads: seq<string>)
    ensures var text := OnLines(payloads);
      Trim(JoinLines(payloads)) == if text == "" then "" else Trim(text[1..])
  {
    if payloads != [] {
      LinesJoined(payloads);
      assert ("\n" + JoinLines(payloads))[1..] == JoinLines(payloads);
    }
  }

  /** The frame holds an event: its text is not empty, parses, and is of a type the caller wants. */
  predicate HoldsEvent<E>(parse: string -> Option<E>, accept: E -> bool, f: Frame) {
    Spelled(f) != "" && parse(Spelled(f)).Some? && accept(parse(Spelled(f)).value)
  }

  /** picks are the frames that hold an event, from left to right; events are those events. */
  ghost predicate AreRead<E>(parse: string -> Option<E>, accept: E -> bool, fs: seq<Frame>, picks: seq<nat>, events: seq<E>) {
    && (forall i :: i in picks <==> 0 <= i < |fs| && HoldsEvent(parse, accept, fs[i]))
    && (forall i, j :: 0 <= i < j < |picks| ==> picks[i] < picks[j])
    && |events| == |picks|
    && forall k :: 0 <= k < |picks| ==> picks[k] < |fs| && parse(Spelled(fs[picks[k]])) == Some(events[k])
  }

  /** events are the events the frames hold, each once, in frame order. */
  ghost predicate AreEvents<E>(parse: string -> Option<E>, accept: E -> bool, fs: seq<Frame>, events: seq<E>) {
    exists picks: seq<nat> :: AreRead(parse, accept, fs, picks, events)
  }

  lemma FrameEvent<E>(parse: string -> Option<E>, accept: E -> bool, f: Frame)
    requires ValidFrame(f)
    ensures HoldsEvent(parse, accept, f) ==> Event(parse, accept, FrameData(Content(f))) == [parse(Spelled(f)).value]
    ensures !HoldsEvent(parse, accept, f) ==> Event(parse, accept, FrameData(Content(f))) == []
  {
    FrameSpells(f);
  }

  lemma ReadNext<E>(parse: string -> Option<E>, accept: E -> bool, init: seq<Frame>, f: Frame, picks: seq<nat>, events: seq<E>)
    requires AreRead(parse, accept, init, picks, events)
    ensures if HoldsEvent(parse, accept, f)
      then AreRead(parse, accept, init + [f], picks + [|init|], events + [parse(Spelled(f)).value])
      else AreRead(parse, accept, init + [f], picks, events)
  {
    var fs := init + [f];
    assert forall i :: 0 <= i < |init| ==> fs[i] == init[i];
    assert fs[|init|] == f;
    forall k | 0 <= k < |picks|
      ensures picks[k] < |init|
    {
      assert picks[k] in picks;
    }
  }

  lemma DeliverLast<E>(parse: string -> Option<E>, accept: E -> bool, frames: seq<string>, last: string)
    ensures Deliver(parse, accept, frames + [last]) == Deliver(parse, accept, frames) + Event(parse, accept, FrameData(last))
  {
    DeliverAppend(parse, accept, frames, [last]);
    DeliverCons(parse, accept, last, []);
    assert [last] + [] == [last];
    assert Event(parse, accept, FrameData(last)) + [] == Event(parse, accept, FrameData(last));
  }

  lemma ContentsSnoc(init: seq<Frame>, last: Frame)
    ensures Contents(init + [last]) == Contents(init) + [Content(last)]
  {
    assert (init + [last])[..|init|] == init;
  }

  ghost predicate AllValid(fs: seq<Frame>) {
    forall i :: 0 <= i < |fs| ==> ValidFrame(fs[i])
  }

  lemma {:induction false} ContentsAreRead<E>(parse: string -> Option<E>, accept: E -> bool, fs: seq<Frame>) returns (picks: seq<nat>)
    requires AllValid(fs)
    ensures AreRead(parse, accept, fs, picks, Deliver(parse, accept, Contents(fs)))
    decreases |fs|
  {
    if fs == [] {
      picks := [];
    } else {
      var init, last := SplitLast(fs);
      picks := ContentsAreRead(parse, accept, init);
      var events := Deliver(parse, accept, Contents(init));
      ContentsSnoc(init, last);
      DeliverLast(parse, accept, Contents(init), Content(last));
      FrameEvent(parse, accept, last);
      ReadNext(parse, accept, init, last, picks, events);
      if HoldsEvent(parse, accept, last) {
        picks := picks + [|init|];
      } else {
        assert events + [] == events;
      }
    }
  }

  // ---- the text of a whole stream ----

  lemma {:induction false} ContentIsOnePiece(f: Frame)
    requires ValidFrame(f)
    ensures Split(BlankLine, Content(f)) == [Content(f)]
    decreases f
  {
    var line := LineText(f.line);
    if f.Final? {
      SplitLine(BlankLine, line, "");
      assert line + "" == line;
      assert Split(BlankLine, "") == [""] + [];
      PushOntoEmpty(line, []);
    } else {
      ContentIsOnePiece(f.rest);
      FrameStarts(f.rest, "");
      SplitEol(f.eol, Content(f.rest));
      SplitLine(BlankLine, line, f.eol + Content(f.rest));
      Associative(line, f.eol, Content(f.rest));
      assert [Content(f.rest)] + [] == [Content(f.rest)];
      PushTwice(line, f.eol, Content(f.rest), []);
    }
  }

  lemma {:induction false} PrintedIsCut(fs: seq<Frame>, rest: string)
    requires AllValid(fs)
    ensures Split(BlankLine, PrintFrames(fs) + rest) == Contents(fs) + Split(BlankLine, rest)
    decreases |fs|
  {
    if fs == [] {
      assert PrintFrames(fs) + rest == rest;
    } else {
      var init, last := SplitLast(fs);
      PrintSnoc(init, last);
      Associative(PrintFrames(init), PrintFrame(last), rest);
      PrintedIsCut(init, PrintFrame(last) + rest);
      FrameIsCut(last, rest);
      ContentsSnoc(init, last);
      Associative(Contents(init), [Content(last)], Split(BlankLine, rest));
    }
  }

  lemma {:induction false} PrintSnoc(init: seq<Frame>, last: Frame)
    ensures PrintFrames(init + [last]) == PrintFrames(init) + PrintFrame(last)
    decreases |init|
  {
    if init == [] {
      assert init + [last] == [last];
      assert PrintFrame(last) + "" == PrintFrame(last);
    } else {
      assert (init + [last])[1..] == init[1..] + [last];
      PrintSnoc(init[1..], last);
    }
  }

  /** What a server may leave at the end: nothing, or a frame without its blank line. */
  function OpenText(open: Option<Frame>): string {
    if open.Some? then Content(open.value) else ""
  }

  predicate ValidOpen(open: Option<Frame>) {
    open.Some? ==> ValidFrame(open.value)
  }

  lemma OpenIsOnePiece(open: Option<Frame>)
    requires ValidOpen(open)
    ensures Split(BlankLine, OpenText(open)) == [OpenText(open)]
  {
    if open.Some? {
      ContentIsOnePiece(open.value);
    }
  }

  lemma NothingDelivered<E>(parse: string -> Option<E>, accept: E -> bool)
    ensures Event(parse, accept, FrameData("")) == []
  {
    assert Split(LineBreak, "") == [""];
    assert [""][1..] == [];
  }

  /** The pieces a reader treats as frames: all of them at the end, all but the last before. */
  function Finished(text: string, ended: bool): seq<string> {
    if ended then Split(BlankLine, text) else Init(Split(BlankLine, text))
  }

  /** The frames a reader may take: not the open one when the stream breaks off. */
  function Received(fs: seq<Frame>, open: Option<Frame>, ended: bool): seq<Frame> {
    if ended && open.Some? then fs + [open.value] else fs
  }

  /**
   * Every frame a server writes is read as the one event its data lines spell, if they spell one,
   * in order; so is a frame the stream ends in, but not when it breaks off.
   */
  lemma PrintedFramesAreRead<E>(parse: string -> Option<E>, accept: E -> bool, fs: seq<Frame>, open: Option<Frame>, ended: bool)
    requires AllValid(fs) && ValidOpen(open)
    ensures AreEvents(parse, accept, Received(fs, open, ended),
              Deliver(parse, accept, Finished(PrintFrames(fs) + OpenText(open), ended)))
  {
    PrintedIsCut(fs, OpenText(open));
    OpenIsOnePiece(open);
    assert Init(Contents(fs) + [OpenText(open)]) == Contents(fs);
    var picks := ContentsAreRead(parse, accept, Received(fs, open, ended));
    if ended && open.Some? {
      ContentsSnoc(fs, open.value);
    } else if ended {
      NothingDelivered(parse, accept);
      DeliverLast(parse, accept, Contents(fs), "");
      assert Deliver(parse, accept, Contents(fs)) + [] == Deliver(parse, accept, Contents(fs));
    }
  }

  /** However text may be written as frames, events are the ones those frames hold. */
  ghost predicate ReadsPrinted<E>(parse: string -> Option<E>, accept: E -> bool, text: string, ended: bool, events: seq<E>) {
    forall fs: seq<Frame>, open: Option<Frame> ::
      AllValid(fs) && ValidOpen(open) && text == PrintFrames(fs) + OpenText(open)
      ==> AreEvents(parse, accept, Received(fs, open, ended), events)
  }

  lemma PrintedIsRead<E>(parse: string -> Option<E>, accept: E -> bool, text: string, ended: bool)
    ensures ReadsPrinted(parse, accept, text, ended, Deliver(parse, accept, Finished(text, ended)))
  {
    var events := Deliver(parse, accept, Finished(text, ended));
    forall fs: seq<Frame>, open: Option<Frame> | AllValid(fs) && ValidOpen(open) && text == PrintFrames(fs) + OpenText(open)
      ensures AreEvents(parse, accept, Received(fs, open, ended), events)
    {
      PrintedFramesAreRead(parse, accept, fs, open, ended);
    }
  }
}
