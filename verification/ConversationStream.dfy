/**
 * The reader of a conversation response: chunks in, callbacks and a final result out.
 * What it does depends on the text of the response and not on how the network cut it.
 */
module ConversationStream {
  import opened Wrappers
  import opened JsText
  import opened JsonScanner
  import opened JsonGrammar

  datatype Kind =
    | FileProc | RagSearch | CompactDone | ProcessUpdate | UpstreamThinkDelta
    | Delta(replace: bool)
    | Usage | MediaStatus | MediaImageDelta
    | ModerationChecking | ModerationBlocked
    | Completed | Error | OtherKind

  /** A parsed event. data is the payload of `completed` and `error` events, when there is one. */
  datatype Event = Event(kind: Kind, number: Option<real>, data: Option<string>)

  datatype Slot =
    | OnFileProc | OnRagSearch | OnCompactDone | OnProcessUpdate | OnUpstreamThinkDelta
    | OnTextSnapshot | OnDelta | OnUsage | OnMediaStatus | OnMediaImageDelta
    | OnModerationChecking | OnModerationBlocked | OnTerminal | OnInterrupted

  datatype Callback = OnEventSeq(number: real) | Call(slot: Slot, event: Event)

  datatype Handled = Handled(calls: seq<Callback>, result: Option<string>, thrown: bool)

  /** `streamEventSeq`: only a positive number counts. */
  function EventSeq(e: Event): real {
    if e.number.Some? && e.number.value > 0.0 then e.number.value else 0.0
  }

  function Slots(e: Event): seq<Slot> {
    match e.kind
    case FileProc => [OnFileProc]
    case RagSearch => [OnRagSearch]
    case CompactDone => [OnCompactDone]
    case ProcessUpdate => [OnProcessUpdate]
    case UpstreamThinkDelta => [OnUpstreamThinkDelta]
    case Delta(replace) => if replace then [OnTextSnapshot] else [OnDelta]
    case Usage => [OnUsage]
    case MediaStatus => [OnMediaStatus]
    case MediaImageDelta => [OnMediaImageDelta]
    case ModerationChecking => [OnModerationChecking]
    case ModerationBlocked => [OnTerminal, OnModerationBlocked]
    case Completed => [OnTerminal]
    case Error => if e.data.Some? then [OnTerminal, OnInterrupted] else [OnTerminal]
    case OtherKind => []
  }

  /** `handleStreamEvent`: an error without a payload and an unknown kind are thrown. */
  function Handle(e: Event): Handled {
    var slots := Slots(e);
    Handled(
      (if EventSeq(e) > 0.0 then [OnEventSeq(EventSeq(e))] else [])
        + seq(|slots|, i requires 0 <= i < |slots| => Call(slots[i], e)),
      if e.kind.Completed? || e.kind.Error? then e.data else None,
      (e.kind.Error? && e.data.None?) || e.kind.OtherKind?)
  }

  /** Everything a caller can see of a read so far; texts are those handed to `JSON.parse`. */
  datatype Reader = Reader(
    texts: seq<string>,
    calls: seq<Callback>,
    completed: Option<string>,
    moderationBlocked: Option<Event>,
    failed: bool)

  const FRESH := Reader([], [], None, None, false)

  /** parse stands for `JSON.parse` followed by `normalizeStreamEvent`; None is an exception. */
  type Parser = string -> Option<Event>

  function Consume(parse: Parser, r: Reader, text: string): Reader {
    if r.failed then r
    else
      match parse(text)
      case None => r.(texts := r.texts + [text], failed := true)
      case Some(e) =>
        var h := Handle(e);
        Reader(
          r.texts + [text],
          r.calls + h.calls,
          if h.result.Some? && !h.thrown then h.result else r.completed,
          if e.kind.ModerationBlocked? then Some(e) else r.moderationBlocked,
          h.thrown)
  }

  function ConsumeAll(parse: Parser, r: Reader, texts: seq<string>): Reader {
    if texts == [] then r
    else Consume(parse, ConsumeAll(parse, r, texts[..|texts| - 1]), texts[|texts| - 1])
  }

  /** The texts a whole response holds, in order: its documents, then what is left if it ended. */
  function Texts(response: string, ended: bool): seq<string> {
    var p := Extract(response);
    p.documents + (if ended && Trim(p.remainder) != "" then [Trim(p.remainder)] else [])
  }

  /** What reading a response amounts to. A stream that breaks off instead of ending throws. */
  function Read(parse: Parser, response: string, ended: bool): Reader {
    var r := ConsumeAll(parse, FRESH, Texts(response, ended));
    if ended then r else r.(failed := true)
  }

  lemma {:induction false} ConsumeAllAppend(parse: Parser, r: Reader, a: seq<string>, b: seq<string>)
    ensures ConsumeAll(parse, r, a + b) == ConsumeAll(parse, ConsumeAll(parse, r, a), b)
    decreases |b|
  {
    if b == [] {
      assert a + b == a;
    } else {
      assert (a + b)[..|a + b| - 1] == a + b[..|b| - 1];
      ConsumeAllAppend(parse, r, a, b[..|b| - 1]);
    }
  }

  lemma {:induction false} FailedStays(parse: Parser, r: Reader, texts: seq<string>)
    requires r.failed
    ensures ConsumeAll(parse, r, texts) == r
  {
    if texts != [] {
      FailedStays(parse, r, texts[..|texts| - 1]);
    }
  }

  lemma FailedPrefix(parse: Parser, r: Reader, a: seq<string>, b: seq<string>)
    requires ConsumeAll(parse, r, a).failed
    ensures ConsumeAll(parse, r, a + b) == ConsumeAll(parse, r, a)
  {
    ConsumeAllAppend(parse, r, a, b);
    FailedStays(parse, ConsumeAll(parse, r, a), b);
  }

  /** What has been read when the chunks so far are text and none of it threw. */
  ghost predicate UpTo(parse: Parser, text: string, r: Reader, buffer: string) {
    && buffer == Extract(text).remainder
    && r == ConsumeAll(parse, FRESH, Extract(text).documents)
  }

  lemma ChunkStep(parse: Parser, text: string, r: Reader, buffer: string, chunk: string)
    requires UpTo(parse, text, r, buffer)
    ensures UpTo(parse, text + chunk, ConsumeAll(parse, r, Extract(buffer + chunk).documents), Extract(buffer + chunk).remainder)
  {
    ExtractAppend(text, chunk);
    ConsumeAllAppend(parse, FRESH, Extract(text).documents, Extract(buffer + chunk).documents);
  }

  /** A throw inside a prefix of the response is the outcome of every longer response. */
  lemma ThrownEarly(parse: Parser, text: string, more: string, documents: seq<string>, ended: bool)
    requires documents <= Extract(text).documents
    requires ConsumeAll(parse, FRESH, documents).failed
    ensures Read(parse, text + more, ended) == ConsumeAll(parse, FRESH, documents)
  {
    ExtractAppend(text, more);
    var all := Texts(text + more, ended);
    assert documents <= Extract(text + more).documents;
    assert all == documents + all[|documents|..];
    FailedPrefix(parse, FRESH, documents, all[|documents|..]);
  }

  /**
   * `readConversationStream` over the decoded texts of the reads that returned. ended: the last
   * of them was the `done` read; otherwise the next read threw.
   */
  method ReadConversationStream(parse: Parser, chunks: seq<string>, ended: bool) returns (r: Reader)
    ensures r == Read(parse, Concat(chunks), ended)
  {
    var buffer := "";
    r := FRESH;
    var i := 0;
    assert chunks[..0] == [];
    while i < |chunks|
      invariant 0 <= i <= |chunks|
      invariant !r.failed
      invariant UpTo(parse, Concat(chunks[..i]), r, buffer)
    {
      ghost var text := Concat(chunks[..i]);
      assert chunks[..i + 1] == chunks[..i] + [chunks[i]];
      ConcatSnoc(chunks[..i], chunks[i]);
      ChunkStep(parse, text, r, buffer, chunks[i]);
      buffer := buffer + chunks[i];
      var documents, remainder := ExtractJSONDocuments(buffer);
      buffer := remainder;
      r := ConsumeDocuments(parse, r, documents);
      i := i + 1;
      if r.failed {
        ConcatAppend(chunks[..i], chunks[i..]);
        assert chunks[..i] + chunks[i..] == chunks;
        ThrownEarly(parse, Concat(chunks[..i]), Concat(chunks[i..]), Extract(Concat(chunks[..i])).documents, ended);
        return;
      }
    }
    assert chunks[..i] == chunks;
    if !ended {
      assert Texts(Concat(chunks), ended) == Extract(Concat(chunks)).documents;
      r := r.(failed := true);
      return;
    }
    var tail := Trim(buffer);
    if tail != "" {
      ConsumeAllAppend(parse, FRESH, Extract(Concat(chunks)).documents, [tail]);
      r := ConsumeTail(parse, r, tail);
    } else {
      assert Texts(Concat(chunks), ended) == Extract(Concat(chunks)).documents;
    }
  }

  lemma ConsumeNext(parse: Parser, before: Reader, documents: seq<string>, j: nat)
    requires j < |documents|
    ensures ConsumeAll(parse, before, documents[..j + 1])
         == Consume(parse, ConsumeAll(parse, before, documents[..j]), documents[j])
  {
    assert documents[..j + 1][..j] == documents[..j];
  }

  /** After a throw the rest of the documents makes no difference. */
  lemma StoppedEarly(parse: Parser, before: Reader, documents: seq<string>, j: nat)
    requires j <= |documents| && ConsumeAll(parse, before, documents[..j]).failed
    ensures ConsumeAll(parse, before, documents) == ConsumeAll(parse, before, documents[..j])
  {
    FailedPrefix(parse, before, documents[..j], documents[j..]);
    assert documents[..j] + documents[j..] == documents;
  }

  /** The loop over the documents of one chunk, left at the first that throws. */
  method ConsumeDocuments(parse: Parser, before: Reader, documents: seq<string>) returns (r: Reader)
    ensures r == ConsumeAll(parse, before, documents)
  {
    r := before;
    var j := 0;
    assert documents[..0] == [];
    while j < |documents|
      invariant 0 <= j <= |documents|
      invariant r == ConsumeAll(parse, before, documents[..j])
    {
      ConsumeNext(parse, before, documents, j);
      r := Consume(parse, r, documents[j]);
      j := j + 1;
      if r.failed {
        StoppedEarly(parse, before, documents, j);
        return;
      }
    }
    assert documents[..j] == documents;
  }

  method ConsumeTail(parse: Parser, r: Reader, tail: string) returns (s: Reader)
    ensures s == ConsumeAll(parse, r, [tail])
  {
    assert [tail][..0] == [];
    s := Consume(parse, r, tail);
  }

  // ---- what a caller may conclude ----

  /** Only the text counts: two cuttings of one response are read alike. */
  function ReadChunks(parse: Parser, r: Reader, buffer: string, chunks: seq<string>, ended: bool): Reader
    decreases |chunks|
  {
    if r.failed then r
    else if chunks == [] then
      if !ended then r.(failed := true)
      else if Trim(buffer) != "" then Consume(parse, r, Trim(buffer)) else r
    else
      var p := Extract(buffer + chunks[0]);
      ReadChunks(parse, ConsumeAll(parse, r, p.documents), p.remainder, chunks[1..], ended)
  }

  lemma {:induction false} ReadChunksFrom(parse: Parser, text: string, r: Reader, buffer: string, chunks: seq<string>, ended: bool)
    requires UpTo(parse, text, r, buffer) && !r.failed
    ensures ReadChunks(parse, r, buffer, chunks, ended) == Read(parse, text + Concat(chunks), ended)
    decreases |chunks|
  {
    if chunks == [] {
      assert text + Concat(chunks) == text;
      var documents := Extract(text).documents;
      if ended && Trim(buffer) != "" {
        assert [Trim(buffer)][..0] == [];
        ConsumeAllAppend(parse, FRESH, documents, [Trim(buffer)]);
      } else {
        assert Texts(text, ended) == documents;
      }
    } else {
      var p := Extract(buffer + chunks[0]);
      var next := ConsumeAll(parse, r, p.documents);
      ChunkStep(parse, text, r, buffer, chunks[0]);
      assert text + Concat(chunks) == text + chunks[0] + Concat(chunks[1..]);
      if next.failed {
        ThrownEarly(parse, text + chunks[0], Concat(chunks[1..]), Extract(text + chunks[0]).documents, ended);
        assert ReadChunks(parse, next, p.remainder, chunks[1..], ended) == next;
      } else {
        ReadChunksFrom(parse, text + chunks[0], next, p.remainder, chunks[1..], ended);
      }
    }
  }

  lemma ChunksDoNotMatter(parse: Parser, chunks: seq<string>, other: seq<string>, ended: bool)
    requires Concat(chunks) == Concat(other)
    ensures ReadChunks(parse, FRESH, "", chunks, ended) == ReadChunks(parse, FRESH, "", other, ended)
  {
    assert Extract("") == Parts([], "");
    ReadChunksFrom(parse, "", FRESH, "", chunks, ended);
    ReadChunksFrom(parse, "", FRESH, "", other, ended);
    assert "" + Concat(chunks) == Concat(chunks) && "" + Concat(other) == Concat(other);
  }

  /** White space on both sides of what `trim` keeps. */
  lemma TrimSplits(s: string) returns (left: string, right: string)
    ensures s == left + Trim(s) + right && Blank(left) && Blank(right)
  {
    left := TrimStartSplits(s);
    right := TrimEndSplits(TrimStart(s));
  }

  /**
   * A read that returns has lost nothing: the response is white space around the texts that
   * were parsed, all of them handled in order and without a throw.
   */
  lemma NothingIsLost(parse: Parser, response: string)
    requires !Read(parse, response, true).failed
    ensures exists gaps: seq<string> ::
      && |gaps| == |Read(parse, response, true).texts| + 1
      && AllBlank(gaps)
      && response == Weave(gaps, Read(parse, response, true).texts)
  {
    var p := Extract(response);
    var texts := Texts(response, true);
    ReadThrows(parse, texts);
    var gaps := ExtractSplits(response);
    var left, right := TrimSplits(p.remainder);
    if Trim(p.remainder) != "" {
      WeaveEnd(gaps, p.documents, left, Trim(p.remainder), right);
    } else {
      WeaveBlank(gaps, p.documents, left + right);
      assert p.remainder == left + right;
      assert texts == p.documents;
    }
  }

  lemma {:induction false} WeaveBlank(gaps: seq<string>, documents: seq<string>, blank: string)
    requires |gaps| == |documents| + 1 && AllBlank(gaps) && Blank(blank)
    ensures exists wider: seq<string> :: |wider| == |documents| + 1 && AllBlank(wider)
              && Weave(gaps, documents) + blank == Weave(wider, documents)
    decreases |documents|
  {
    if documents == [] {
      var wider := [gaps[0] + blank];
      assert AllBlank(wider) && Weave(wider, documents) == gaps[0] + blank;
    } else {
      WeaveBlank(gaps[1..], documents[1..], blank);
      var rest: seq<string> :| |rest| == |documents| && AllBlank(rest)
        && Weave(gaps[1..], documents[1..]) + blank == Weave(rest, documents[1..]);
      WeaveCons(gaps[0], documents, rest);
      assert Weave(gaps, documents) + blank
          == gaps[0] + documents[0] + (Weave(gaps[1..], documents[1..]) + blank);
    }
  }

  lemma WeaveCons(gap: string, documents: seq<string>, rest: seq<string>)
    requires documents != [] && |rest| == |documents| && Blank(gap) && AllBlank(rest)
    ensures AllBlank([gap] + rest)
    ensures Weave([gap] + rest, documents) == gap + documents[0] + Weave(rest, documents[1..])
  {
    assert ([gap] + rest)[1..] == rest;
  }

  lemma {:induction false} WeaveEnd(gaps: seq<string>, documents: seq<string>, left: string, text: string, right: string)
    requires |gaps| == |documents| + 1 && AllBlank(gaps) && Blank(left) && Blank(right)
    ensures exists wider: seq<string> :: |wider| == |documents| + 2 && AllBlank(wider)
              && Weave(gaps, documents) + (left + text + right) == Weave(wider, documents + [text])
    decreases |documents|
  {
    if documents == [] {
      var wider := [gaps[0] + left, right];
      WeaveCons(gaps[0] + left, [text], [right]);
      assert documents + [text] == [text];
      assert Weave([right], [text][1..]) == right;
      assert gaps[0] + (left + text + right) == gaps[0] + left + text + right;
      assert wider == [gaps[0] + left] + [right];
    } else {
      WeaveEnd(gaps[1..], documents[1..], left, text, right);
      var rest: seq<string> :| |rest| == |documents| + 1 && AllBlank(rest)
        && Weave(gaps[1..], documents[1..]) + (left + text + right) == Weave(rest, documents[1..] + [text]);
      var all := documents + [text];
      assert all[1..] == documents[1..] + [text];
      WeaveCons(gaps[0], all, rest);
      assert Weave(gaps, documents) + (left + text + right)
          == gaps[0] + documents[0] + (Weave(gaps[1..], documents[1..]) + (left + text + right));
    }
  }

  // ---- what one event means to a caller ----

  /** The text throws: it does not parse, or its event is an error without payload or of an unknown kind. */
  predicate Throws(parse: Parser, text: string) {
    match parse(text)
    case None => true
    case Some(e) => e.kind.OtherKind? || (e.kind.Error? && e.data.None?)
  }

  /** The result a text brings: the payload of a completed or interrupted round. */
  function Result(parse: Parser, text: string): Option<string> {
    match parse(text)
    case None => None
    case Some(e) => if e.kind.Completed? || e.kind.Error? then e.data else None
  }

  /** Callback by callback, the events it is for. */
  predicate Hears(slot: Slot, e: Event) {
    match slot
    case OnFileProc => e.kind.FileProc?
    case OnRagSearch => e.kind.RagSearch?
    case OnCompactDone => e.kind.CompactDone?
    case OnProcessUpdate => e.kind.ProcessUpdate?
    case OnUpstreamThinkDelta => e.kind.UpstreamThinkDelta?
    case OnTextSnapshot => e.kind.Delta? && e.kind.replace
    case OnDelta => e.kind.Delta? && !e.kind.replace
    case OnUsage => e.kind.Usage?
    case OnMediaStatus => e.kind.MediaStatus?
    case OnMediaImageDelta => e.kind.MediaImageDelta?
    case OnModerationChecking => e.kind.ModerationChecking?
    case OnModerationBlocked => e.kind.ModerationBlocked?
    case OnTerminal => e.kind.Completed? || e.kind.Error? || e.kind.ModerationBlocked?
    case OnInterrupted => e.kind.Error? && e.data.Some?
  }

  predicate Announced(c: Callback, e: Event) {
    match c
    case OnEventSeq(number) => e.number == Some(number) && number > 0.0
    case Call(slot, about) => about == e && Hears(slot, e)
  }

  /** The sequence number comes first, the terminal callback before any other. */
  function Rank(c: Callback): nat {
    if c.OnEventSeq? then 0 else if c.slot.OnTerminal? then 1 else 2
  }

  /** calls are the callbacks e is for, each once, in their order: there is only one such list. */
  ghost predicate Announces(e: Event, calls: seq<Callback>) {
    && (forall c :: c in calls <==> Announced(c, e))
    && forall i, j :: 0 <= i < j < |calls| ==> Rank(calls[i]) < Rank(calls[j])
  }

  lemma {:induction false} OneOrder(a: seq<Callback>, b: seq<Callback>)
    requires forall i, j :: 0 <= i < j < |a| ==> Rank(a[i]) < Rank(a[j])
    requires forall i, j :: 0 <= i < j < |b| ==> Rank(b[i]) < Rank(b[j])
    requires forall c :: c in a <==> c in b
    ensures a == b
  {
    assert b != [] ==> b[0] in b;
    if a != [] {
      assert a[0] in a && a[0] in b;
      assert a[0] == b[0];
      forall c
        ensures c in a[1..] <==> c in b[1..]
      {
        assert c in a[1..] <==> c in a && c != a[0];
        assert c in b[1..] <==> c in b && c != b[0];
      }
      OneOrder(a[1..], b[1..]);
    }
  }

  lemma SlotsHeard(e: Event)
    ensures forall slot :: slot in Slots(e) <==> Hears(slot, e)
    ensures |Slots(e)| <= 2 && (|Slots(e)| == 2 ==> Slots(e)[0].OnTerminal? && !Slots(e)[1].OnTerminal?)
  {
  }

  lemma CallsAnnounced(e: Event, c: Callback)
    ensures c in Handle(e).calls <==> Announced(c, e)
  {
    SlotsHeard(e);
    var calls, slots := Handle(e).calls, Slots(e);
    var m := |calls| - |slots|;
    if Announced(c, e) && c.Call? {
      var i :| 0 <= i < |slots| && slots[i] == c.slot;
      assert calls[m + i] == c;
    }
  }

  lemma OneAnnouncement(e: Event, a: seq<Callback>, b: seq<Callback>)
    requires Announces(e, a) && Announces(e, b)
    ensures a == b
  {
    forall c
      ensures c in a <==> c in b
    {
      assert c in a <==> Announced(c, e);
    }
    OneOrder(a, b);
  }

  /** What happens on an event is what its kind, number and payload call for. */
  lemma HandleAnnounces(e: Event)
    ensures Announces(e, Handle(e).calls)
  {
    forall c
      ensures c in Handle(e).calls <==> Announced(c, e)
    {
      CallsAnnounced(e, c);
    }
    SlotsHeard(e);
  }

  /** The first text that throws, or the number of texts. */
  function FirstThrow(parse: Parser, texts: seq<string>): (n: nat)
    ensures n <= |texts|
    ensures forall i :: 0 <= i < n ==> !Throws(parse, texts[i])
    ensures n < |texts| ==> Throws(parse, texts[n])
  {
    if texts == [] then 0
    else if Throws(parse, texts[0]) then 0
    else 1 + FirstThrow(parse, texts[1..])
  }

  lemma {:induction false} FirstThrowSnoc(parse: Parser, texts: seq<string>, text: string)
    ensures var n := FirstThrow(parse, texts);
      FirstThrow(parse, texts + [text]) == if n < |texts| || Throws(parse, text) then n else n + 1
  {
    if texts != [] {
      assert (texts + [text])[1..] == texts[1..] + [text];
      FirstThrowSnoc(parse, texts[1..], text);
    }
  }

  /** The payload of the last text that has one. */
  function LastResult(parse: Parser, texts: seq<string>): Option<string> {
    if texts == [] then None
    else if LastResult(parse, texts[1..]).Some? then LastResult(parse, texts[1..])
    else Result(parse, texts[0])
  }

  lemma {:induction false} LastResultSnoc(parse: Parser, texts: seq<string>, text: string)
    ensures LastResult(parse, texts + [text])
         == if Result(parse, text).Some? then Result(parse, text) else LastResult(parse, texts)
  {
    if texts != [] {
      assert (texts + [text])[1..] == texts[1..] + [text];
      LastResultSnoc(parse, texts[1..], text);
    }
  }

  function Blocked(parse: Parser, text: string): Option<Event> {
    if parse(text).Some? && parse(text).value.kind.ModerationBlocked? then parse(text) else None
  }

  /** The last event that says the content was blocked. */
  function LastBlocked(parse: Parser, texts: seq<string>): Option<Event> {
    if texts == [] then None
    else if LastBlocked(parse, texts[1..]).Some? then LastBlocked(parse, texts[1..])
    else Blocked(parse, texts[0])
  }

  lemma {:induction false} LastBlockedSnoc(parse: Parser, texts: seq<string>, text: string)
    ensures LastBlocked(parse, texts + [text])
         == if Blocked(parse, text).Some? then Blocked(parse, text) else LastBlocked(parse, texts)
  {
    if texts != [] {
      assert (texts + [text])[1..] == texts[1..] + [text];
      LastBlockedSnoc(parse, texts[1..], text);
    }
  }

  /** r has parsed texts up to the first that throws, the n-th. */
  predicate ParsedThrough(r: Reader, texts: seq<string>, n: nat)
    requires n <= |texts|
  {
    r.failed == (n < |texts|) && r.texts == if n < |texts| then texts[..n + 1] else texts
  }

  lemma ParsedOneMore(parse: Parser, r: Reader, init: seq<string>, last: string, n: nat)
    requires n <= |init| && ParsedThrough(r, init, n)
    ensures ParsedThrough(Consume(parse, r, last), init + [last],
              if n < |init| || Throws(parse, last) then n else n + 1)
  {
    if n < |init| {
      assert (init + [last])[..n + 1] == init[..n + 1];
    } else {
      assert (init + [last])[..n + 1] == init + [last];
    }
  }

  lemma ConsumeAllSnoc(parse: Parser, r: Reader, init: seq<string>, last: string)
    ensures ConsumeAll(parse, r, init + [last]) == Consume(parse, ConsumeAll(parse, r, init), last)
  {
    assert (init + [last])[..|init|] == init;
  }

  /** Reading texts throws if and only if one of them does, and parses no text behind the first that does. */
  predicate ReadThrough(parse: Parser, texts: seq<string>) {
    ParsedThrough(ConsumeAll(parse, FRESH, texts), texts, FirstThrow(parse, texts))
  }

  lemma ReadThroughNext(parse: Parser, init: seq<string>, last: string, texts: seq<string>)
    requires ReadThrough(parse, init) && texts == init + [last]
    ensures ReadThrough(parse, texts)
  {
    ConsumeAllSnoc(parse, FRESH, init, last);
    FirstThrowSnoc(parse, init, last);
    ParsedOneMore(parse, ConsumeAll(parse, FRESH, init), init, last, FirstThrow(parse, init));
  }

  lemma NothingRead(parse: Parser)
    ensures ReadThrough(parse, [])
  {
  }

  /** A read throws exactly when some text does; it then parsed the texts up to the first that does. */
  lemma {:induction false} ReadThrows(parse: Parser, texts: seq<string>)
    ensures ReadThrough(parse, texts)
    decreases |texts|
  {
    if texts == [] {
      NothingRead(parse);
    } else {
      var init, last := SplitLast(texts);
      ReadThrows(parse, init);
      ReadThroughNext(parse, init, last, texts);
    }
  }

  /**
   * What a read returns is the payload of the last parsed text that has one, and the last event
   * that blocks the content.
   */
  lemma {:induction false} ReadReturns(parse: Parser, texts: seq<string>)
    ensures var r := ConsumeAll(parse, FRESH, texts);
      && r.completed == LastResult(parse, r.texts)
      && r.moderationBlocked == LastBlocked(parse, r.texts)
  {
    if texts != [] {
      var init, last := texts[..|texts| - 1], texts[|texts| - 1];
      ReadReturns(parse, init);
      var r := ConsumeAll(parse, FRESH, init);
      LastResultSnoc(parse, r.texts, last);
      LastBlockedSnoc(parse, r.texts, last);
    }
  }

  // ---- the callbacks of a whole read ----

  function Flatten(blocks: seq<seq<Callback>>): seq<Callback> {
    if blocks == [] then [] else Flatten(blocks[..|blocks| - 1]) + blocks[|blocks| - 1]
  }

  /** Text by text, the callbacks its event is for; a text that does not parse calls nobody. */
  ghost predicate AnnouncesAll(parse: Parser, texts: seq<string>, blocks: seq<seq<Callback>>) {
    && |blocks| == |texts|
    && forall i :: 0 <= i < |texts| ==>
         match parse(texts[i])
         case None => blocks[i] == []
         case Some(e) => Announces(e, blocks[i])
  }

  lemma OneMoreBlock(parse: Parser, texts: seq<string>, blocks: seq<seq<Callback>>, text: string, calls: seq<Callback>)
    requires AnnouncesAll(parse, texts, blocks)
    requires match parse(text) case None => calls == [] case Some(e) => Announces(e, calls)
    ensures AnnouncesAll(parse, texts + [text], blocks + [calls])
    ensures Flatten(blocks + [calls]) == Flatten(blocks) + calls
  {
    assert (blocks + [calls])[..|blocks|] == blocks;
  }

  lemma ConsumedCalls(parse: Parser, r: Reader, text: string, blocks: seq<seq<Callback>>) returns (more: seq<seq<Callback>>)
    requires AnnouncesAll(parse, r.texts, blocks) && r.calls == Flatten(blocks)
    ensures AnnouncesAll(parse, Consume(parse, r, text).texts, more) && Consume(parse, r, text).calls == Flatten(more)
  {
    if r.failed {
      more := blocks;
    } else {
      var calls := if parse(text).Some? then Handle(parse(text).value).calls else [];
      if parse(text).Some? {
        HandleAnnounces(parse(text).value);
      }
      OneMoreBlock(parse, r.texts, blocks, text, calls);
      more := blocks + [calls];
    }
  }

  /** The callbacks of a read are, in order, those the events of the parsed texts are for, and no others. */
  lemma {:induction false} ReadCalls(parse: Parser, texts: seq<string>) returns (blocks: seq<seq<Callback>>)
    ensures var r := ConsumeAll(parse, FRESH, texts);
      AnnouncesAll(parse, r.texts, blocks) && r.calls == Flatten(blocks)
    decreases |texts|
  {
    if texts == [] {
      blocks := [];
    } else {
      var init, last := SplitLast(texts);
      blocks := ReadCalls(parse, init);
      ConsumeAllSnoc(parse, FRESH, init, last);
      blocks := ConsumedCalls(parse, ConsumeAll(parse, FRESH, init), last, blocks);
    }
  }

  /**
   * A server that prints objects with any white space between them, over a network that cuts
   * them anywhere, is read object by object: every event printed is the event parsed.
   */
  lemma PrintedResponseIsRead(parse: Parser, vs: seq<Json>, gaps: seq<string>, chunks: seq<string>)
    requires AllObjects(vs) && |gaps| == |vs| + 1 && AllBlank(gaps)
    requires Concat(chunks) == Weave(gaps, PrintAll(vs))
    ensures ReadChunks(parse, FRESH, "", chunks, true) == ConsumeAll(parse, FRESH, PrintAll(vs))
  {
    PrintedObjectsAreExtracted(vs, gaps);
    assert Extract("") == Parts([], "");
    ReadChunksFrom(parse, "", FRESH, "", chunks, true);
    assert "" + Concat(chunks) == Concat(chunks);
    assert Texts(Concat(chunks), true) == PrintAll(vs);
  }
}
