/**
 * The recogniser that decides whether a piece of code is an SVG document: a cursor walks over
 * white space, comments, processing instructions and svg doctypes until it stands on a root tag.
 */
module SvgProlog {
  import opened Wrappers
  import opened JsText

  // ---- patterns ----

  function Lower(c: char): char {
    if 'A' <= c <= 'Z' then c - 'A' + 'a' else c
  }

  /** text starts with the lower-case pattern, in any ASCII case. */
  predicate StartsLike(text: string, pattern: string) {
    |text| >= |pattern| && forall i :: 0 <= i < |pattern| ==> Lower(text[i]) == pattern[i]
  }

  const DOCTYPE := "<!doctype"

  /** `^<!doctype\s+svg(?:\s|\[|>)`, ignoring case */
  predicate StartsSvgDoctype(s: string) {
    && StartsLike(s, DOCTYPE)
    && |s| > |DOCTYPE| && IsSpace(s[|DOCTYPE|])
    && var rest := TrimStart(s[|DOCTYPE|..]);
      StartsLike(rest, "svg") && |rest| > 3 && (IsSpace(rest[3]) || rest[3] == '[' || rest[3] == '>')
  }

  predicate IsNameStart(c: char) {
    'a' <= Lower(c) <= 'z' || c == '_'
  }

  predicate IsNamePart(c: char) {
    IsNameStart(c) || '0' <= c <= '9' || c == '.' || c == '-'
  }

  predicate IsPrefix(p: string) {
    p != "" && IsNameStart(p[0]) && forall i :: 0 < i < |p| ==> IsNamePart(p[i])
  }

  predicate SvgName(s: string) {
    && StartsLike(s, "svg")
    && |s| > 3
    && (IsSpace(s[3]) || s[3] == '>' || (s[3] == '/' && |s| > 4 && s[4] == '>'))
  }

  /** `^<(?:[a-z_][\w.-]*:)?svg(?:\s|\/?>)`, ignoring case */
  predicate SvgRoot(s: string) {
    && s != "" && s[0] == '<'
    && (SvgName(s[1..]) || exists k :: 0 < k < |s| && s[k] == ':' && IsPrefix(s[1..k]) && SvgName(s[k + 1..]))
  }

  predicate IsDocumentSpace(c: char) {
    c == '\t' || c == '\n' || c == '\r' || c == ' ' || c == '\U{FEFF}'
  }

  function SkipSpace(s: string): (t: string)
    ensures |t| <= |s|
  {
    if s != "" && IsDocumentSpace(s[0]) then SkipSpace(s[1..]) else s
  }

  predicate Occurs(pattern: string, s: string, k: nat) {
    k + |pattern| <= |s| && s[k..k + |pattern|] == pattern
  }

  /** `s.indexOf(pattern, from)` */
  function IndexOf(s: string, pattern: string, from: nat): (k: int)
    ensures k == -1 || (from <= k && Occurs(pattern, s, k))
    ensures forall j: nat :: from <= j && (k < 0 || j < k) ==> !Occurs(pattern, s, j)
    decreases |s| - from
  {
    if from > |s| then -1
    else if Occurs(pattern, s, from) then from
    else IndexOf(s, pattern, from + 1)
  }

  // ---- the doctype scanner ----

  datatype Quoting = Quoting(quote: string, depth: nat)

  function Quote(q: Quoting, c: char): Quoting {
    if q.quote != "" then
      if [c] == q.quote then q.(quote := "") else q
    else if c == '"' || c == '\'' then q.(quote := [c])
    else if c == '[' then q.(depth := q.depth + 1)
    else if c == ']' && q.depth > 0 then q.(depth := q.depth - 1)
    else q
  }

  const OUTSIDE := Quoting("", 0)

  function Scan(q: Quoting, text: string): Quoting {
    if text == "" then q else Quote(Scan(q, text[..|text| - 1]), text[|text| - 1])
  }

  /** The character at k is a `>` outside quotes and brackets. */
  predicate EndsAt(s: string, k: nat) {
    k < |s| && s[k] == '>' && Scan(OUTSIDE, s[..k]) == OUTSIDE
  }

  function DoctypeEnd(s: string, from: nat): (k: int)
    ensures k == -1 || (from <= k < |s| && EndsAt(s, k))
    ensures forall j: nat :: from <= j && (k < 0 || j < k) ==> !EndsAt(s, j)
    decreases |s| - from
  {
    if from >= |s| then -1
    else if EndsAt(s, from) then from
    else DoctypeEnd(s, from + 1)
  }

  // ---- the recogniser on what is left of the code ----

  /** Length of the comment, instruction or doctype at the start of s; 0: none; -1: it does not end. */
  function ItemLength(s: string): (n: int)
    ensures -1 <= n <= |s|
  {
    if Occurs("<!--", s, 0) then
      var end := IndexOf(s, "-->", 4);
      if end < 0 then -1 else end + 3
    else if Occurs("<?", s, 0) then
      var end := IndexOf(s, "?>", 2);
      if end < 0 then -1 else end + 2
    else if StartsSvgDoctype(s) then DoctypeEnd(s, 0) + if DoctypeEnd(s, 0) < 0 then 0 else 1
    else 0
  }

  predicate Recognise(s: string)
    decreases |s|
  {
    var t := SkipSpace(s);
    var n := ItemLength(t);
    if n < 0 then false
    else if n == 0 then SvgRoot(t)
    else Recognise(t[n..])
  }

  // ---- the grammar ----

  ghost predicate IsSpaceRun(x: string) {
    forall i :: 0 <= i < |x| ==> x[i] in "\t\n\r \U{FEFF}"
  }

  /** open, then anything, then the first close there is. */
  ghost predicate Bracketed(x: string, open: string, close: string) {
    && Occurs(open, x, 0)
    && |x| >= |open| + |close|
    && Occurs(close, x, |x| - |close|)
    && forall k :: |open| <= k < |x| - |close| ==> !Occurs(close, x, k)
  }

  ghost predicate IsComment(x: string) {
    Bracketed(x, "<!--", "-->")
  }

  ghost predicate IsInstruction(x: string) {
    Bracketed(x, "<?", "?>")
  }

  /** What stands between `<!doctype` and its `>`: quoted literals, bracketed groups, other characters. */
  datatype Piece = Plain(c: char) | Literal(quote: char, body: string) | Group(pieces: seq<Piece>)

  /** nested: inside a group, where `]` cannot be plain but `>` can. */
  predicate IsPiece(p: Piece, nested: bool) {
    match p
    case Plain(c) => c != '"' && c != '\'' && c != '[' && c != if nested then ']' else '>'
    case Literal(quote, body) => (quote == '"' || quote == '\'') && quote !in body
    case Group(pieces) => forall i :: 0 <= i < |pieces| ==> IsPiece(pieces[i], true)
  }

  predicate ArePieces(pieces: seq<Piece>, nested: bool) {
    forall i :: 0 <= i < |pieces| ==> IsPiece(pieces[i], nested)
  }

  function Text(p: Piece): string {
    match p
    case Plain(c) => [c]
    case Literal(quote, body) => [quote] + body + [quote]
    case Group(pieces) => "[" + Texts(pieces) + "]"
  }

  function Texts(pieces: seq<Piece>): string {
    if pieces == [] then "" else Texts(pieces[..|pieces| - 1]) + Text(pieces[|pieces| - 1])
  }

  ghost predicate IsSvgDoctype(x: string) {
    StartsSvgDoctype(x) && exists pieces: seq<Piece> :: ArePieces(pieces, false) && x == Texts(pieces) + ">"
  }

  ghost predicate IsItem(x: string) {
    IsSpaceRun(x) || IsComment(x) || IsInstruction(x) || IsSvgDoctype(x)
  }

  ghost predicate AllItems(items: seq<string>) {
    forall i :: 0 <= i < |items| ==> IsItem(items[i])
  }

  /** Prolog items, then an svg root tag. */
  ghost predicate IsSvgDocument(code: string) {
    exists items: seq<string>, root: string :: AllItems(items) && SvgRoot(root) && code == Concat(items) + root
  }

  // ---- the doctype scanner reads literals, groups and characters ----

  /** Started in q, the scanner meets no `>` that would end the doctype. */
  ghost predicate Quiet(q: Quoting, s: string) {
    forall k :: 0 <= k < |s| && s[k] == '>' ==> Scan(q, s[..k]) != OUTSIDE
  }

  lemma {:induction false} ScanAppend(q: Quoting, a: string, b: string)
    ensures Scan(q, a + b) == Scan(Scan(q, a), b)
    decreases |b|
  {
    if b == "" {
      assert a + b == a;
    } else {
      assert (a + b)[..|a + b| - 1] == a + b[..|b| - 1];
      ScanAppend(q, a, b[..|b| - 1]);
    }
  }

  lemma QuietAppend(q: Quoting, a: string, b: string)
    requires Quiet(q, a) && Quiet(Scan(q, a), b)
    ensures Quiet(q, a + b) && Scan(q, a + b) == Scan(Scan(q, a), b)
  {
    ScanAppend(q, a, b);
    forall k | 0 <= k < |a + b| && (a + b)[k] == '>'
      ensures Scan(q, (a + b)[..k]) != OUTSIDE
    {
      if k < |a| {
        assert (a + b)[..k] == a[..k];
      } else {
        assert (a + b)[..k] == a + b[..k - |a|];
        ScanAppend(q, a, b[..k - |a|]);
      }
    }
  }

  lemma OneCharacter(q: Quoting, c: char)
    requires c != '>' || q != OUTSIDE
    ensures Scan(q, [c]) == Quote(q, c) && Quiet(q, [c])
  {
    assert [c][..0] == "";
  }

  lemma {:induction false} QuotedStays(q: Quoting, body: string)
    requires q.quote != "" && forall i :: 0 <= i < |body| ==> [body[i]] != q.quote
    ensures Scan(q, body) == q && Quiet(q, body)
    decreases |body|
  {
    if body != "" {
      var init, last := SplitLast(body);
      assert forall i :: 0 <= i < |init| ==> init[i] == body[i];
      QuotedStays(q, init);
      OneCharacter(q, last);
      QuietAppend(q, init, [last]);
    }
  }

  lemma LiteralPasses(depth: nat, quote: char, body: string)
    requires IsPiece(Literal(quote, body), depth > 0)
    ensures var q := Quoting("", depth); Scan(q, Text(Literal(quote, body))) == q && Quiet(q, Text(Literal(quote, body)))
  {
    var q, inside := Quoting("", depth), Quoting([quote], depth);
    OneCharacter(q, quote);
    QuotedStays(inside, body);
    OneCharacter(inside, quote);
    QuietAppend(q, [quote], body);
    QuietAppend(q, [quote] + body, [quote]);
  }

  lemma {:induction false} PiecePasses(depth: nat, p: Piece)
    requires IsPiece(p, depth > 0)
    ensures var q := Quoting("", depth); Scan(q, Text(p)) == q && Quiet(q, Text(p))
    decreases p
  {
    var q := Quoting("", depth);
    match p
    case Plain(c) => OneCharacter(q, c);
    case Literal(quote, body) => LiteralPasses(depth, quote, body);
    case Group(pieces) =>
      OneCharacter(q, '[');
      PiecesPass(depth + 1, pieces);
      OneCharacter(Quoting("", depth + 1), ']');
      QuietAppend(q, "[", Texts(pieces));
      QuietAppend(q, "[" + Texts(pieces), "]");
  }

  lemma {:induction false} PiecesPass(depth: nat, pieces: seq<Piece>)
    requires ArePieces(pieces, depth > 0)
    ensures var q := Quoting("", depth); Scan(q, Texts(pieces)) == q && Quiet(q, Texts(pieces))
    decreases pieces
  {
    if pieces != [] {
      var init, last := pieces[..|pieces| - 1], pieces[|pieces| - 1];
      PiecesPass(depth, init);
      PiecePasses(depth, last);
      QuietAppend(Quoting("", depth), Texts(init), Text(last));
    }
  }

  /** What was read so far: outside every group, or inside a group that is still open. */
  datatype Reading = Outside(pieces: seq<Piece>) | Inside(before: Reading, pieces: seq<Piece>)

  function OpenText(r: Reading): string {
    match r
    case Outside(pieces) => Texts(pieces)
    case Inside(before, pieces) => OpenText(before) + ("[" + Texts(pieces))
  }

  function Depth(r: Reading): nat {
    match r
    case Outside(_) => 0
    case Inside(before, _) => Depth(before) + 1
  }

  predicate IsReading(r: Reading) {
    match r
    case Outside(pieces) => ArePieces(pieces, false)
    case Inside(before, pieces) => IsReading(before) && ArePieces(pieces, true)
  }

  function Extended(r: Reading, p: Piece): Reading {
    r.(pieces := r.pieces + [p])
  }

  lemma TextsSnoc(pieces: seq<Piece>, p: Piece)
    ensures Texts(pieces + [p]) == Texts(pieces) + Text(p)
  {
    assert (pieces + [p])[..|pieces|] == pieces;
  }

  lemma OneMore(r: Reading, p: Piece)
    ensures OpenText(Extended(r, p)) == OpenText(r) + Text(p)
  {
    TextsSnoc(r.pieces, p);
    if r.Inside? {
      Associative("[", Texts(r.pieces), Text(p));
      Associative(OpenText(r.before), "[" + Texts(r.pieces), Text(p));
    }
  }

  lemma OpenedText(r: Reading)
    ensures OpenText(Inside(r, [])) == OpenText(r) + "["
  {
    assert "[" + Texts([]) == "[";
  }

  lemma ClosedText(r: Reading)
    requires r.Inside?
    ensures OpenText(Extended(r.before, Group(r.pieces))) == OpenText(r) + "]"
  {
    OneMore(r.before, Group(r.pieces));
    Associative(OpenText(r.before), "[" + Texts(r.pieces), "]");
  }

  /** A reading, and the quote with what follows it when a literal is open. */
  datatype Partial = Partial(reading: Reading, literal: string)

  function TextSoFar(t: Partial): string {
    OpenText(t.reading) + t.literal
  }

  /** The pieces a text ends in, character by character. */
  function ReadOn(t: Partial, c: char): Partial {
    var r := t.reading;
    if t.literal != "" then
      if c == t.literal[0] then Partial(Extended(r, Literal(c, t.literal[1..])), "") else t.(literal := t.literal + [c])
    else if c == '"' || c == '\'' then Partial(r, [c])
    else if c == '[' then Partial(Inside(r, []), "")
    else if c == ']' && r.Inside? then Partial(Extended(r.before, Group(r.pieces)), "")
    else Partial(Extended(r, Plain(c)), "")
  }

  function ReadAll(w: string): Partial {
    if w == "" then Partial(Outside([]), "") else ReadOn(ReadAll(w[..|w| - 1]), w[|w| - 1])
  }

  /** The scanner's state is the one t implies. */
  predicate Fits(q: Quoting, t: Partial) {
    && IsReading(t.reading) && q.depth == Depth(t.reading)
    && if t.literal == "" then q.quote == ""
       else q.quote == [t.literal[0]] && (t.literal[0] == '"' || t.literal[0] == '\'') && t.literal[0] !in t.literal[1..]
  }

  lemma ExtendedReads(r: Reading, p: Piece)
    requires IsReading(r) && IsPiece(p, r.Inside?)
    ensures IsReading(Extended(r, p)) && Depth(Extended(r, p)) == Depth(r)
  {
  }

  lemma ReadOnFits(q: Quoting, t: Partial, c: char)
    requires Fits(q, t) && (c != '>' || q != OUTSIDE)
    ensures Fits(Quote(q, c), ReadOn(t, c))
  {
    var r := t.reading;
    if t.literal != "" {
      if c == t.literal[0] {
        ExtendedReads(r, Literal(c, t.literal[1..]));
      } else {
        assert (t.literal + [c])[1..] == t.literal[1..] + [c];
      }
    } else if c == ']' && r.Inside? {
      ExtendedReads(r.before, Group(r.pieces));
    } else if c != '"' && c != '\'' && c != '[' {
      ExtendedReads(r, Plain(c));
    }
  }

  lemma LiteralText(literal: string)
    requires literal != ""
    ensures Text(Literal(literal[0], literal[1..])) == literal + [literal[0]]
  {
    assert [literal[0]] + literal[1..] == literal;
  }

  lemma NoLiteral(r: Reading)
    ensures TextSoFar(Partial(r, "")) == OpenText(r)
  {
  }

  lemma ReadOnText(t: Partial, c: char)
    ensures TextSoFar(ReadOn(t, c)) == TextSoFar(t) + [c]
  {
    var r := t.reading;
    NoLiteral(ReadOn(t, c).reading);
    NoLiteral(r);
    if t.literal != "" {
      Associative(OpenText(r), t.literal, [c]);
      if c == t.literal[0] {
        LiteralText(t.literal);
        OneMore(r, Literal(c, t.literal[1..]));
      }
    } else if c == '"' || c == '\'' {
      assert ReadOn(t, c) == Partial(r, [c]);
    } else if c == '[' {
      OpenedText(r);
    } else if c == ']' && r.Inside? {
      ClosedText(r);
    } else {
      OneMore(r, Plain(c));
    }
  }

  lemma ReadAllSnoc(init: string, last: char)
    ensures ReadAll(init + [last]) == ReadOn(ReadAll(init), last)
  {
    assert (init + [last])[..|init|] == init;
  }

  lemma QuietPrefix(q: Quoting, init: string, last: char)
    requires Quiet(q, init + [last])
    ensures Quiet(q, init) && (last != '>' || Scan(q, init) != OUTSIDE)
    ensures Scan(q, init + [last]) == Quote(Scan(q, init), last)
  {
    var w := init + [last];
    forall k | 0 <= k <= |init|
      ensures w[..k] == init[..k] && (k < |init| ==> w[k] == init[k])
    {
    }
    assert w[..|init|] == init && w[|init|] == last;
  }

  lemma {:induction false} ReadAllReads(w: string)
    requires Quiet(OUTSIDE, w)
    ensures Fits(Scan(OUTSIDE, w), ReadAll(w)) && TextSoFar(ReadAll(w)) == w
    decreases |w|
  {
    if w == "" {
      assert ReadAll(w) == Partial(Outside([]), "");
    } else {
      var init, last := SplitLast(w);
      QuietPrefix(OUTSIDE, init, last);
      ReadAllReads(init);
      ReadAllSnoc(init, last);
      ReadOnFits(Scan(OUTSIDE, init), ReadAll(init), last);
      ReadOnText(ReadAll(init), last);
    }
  }

  /** k is the first place where the scanner sees the doctype end. */
  ghost predicate EndsFirstAt(x: string, k: int) {
    0 <= k < |x| && EndsAt(x, k) && forall j :: 0 <= j < k ==> !EndsAt(x, j)
  }

  /** The scanner stops at the end of x and nowhere before exactly when x is pieces and a `>`. */
  lemma DoctypeIsPieces(x: string)
    ensures EndsFirstAt(x, |x| - 1) <==> exists pieces: seq<Piece> :: ArePieces(pieces, false) && x == Texts(pieces) + ">"
  {
    if EndsFirstAt(x, |x| - 1) {
      var w := x[..|x| - 1];
      forall k | 0 <= k < |w| && w[k] == '>'
        ensures Scan(OUTSIDE, w[..k]) != OUTSIDE
      {
        assert w[..k] == x[..k] && !EndsAt(x, k);
      }
      ReadAllReads(w);
      assert x == Texts(ReadAll(w).reading.pieces) + ">";
    }
    if pieces: seq<Piece> :| ArePieces(pieces, false) && x == Texts(pieces) + ">" {
      PiecesPass(0, pieces);
      var w := Texts(pieces);
      assert forall k :: 0 <= k <= |w| ==> w[..k] == x[..k];
      assert w[..|w|] == w;
    }
  }

  // ---- the two patterns, written out ----

  /** c is p, or its capital. */
  predicate EitherCase(c: char, p: char) {
    c == p || ('a' <= p <= 'z' && c == p - 'a' + 'A')
  }

  predicate InEitherCase(text: string, pattern: string) {
    |text| == |pattern| && forall i :: 0 <= i < |text| ==> EitherCase(text[i], pattern[i])
  }

  predicate IsLetter(c: char) {
    'a' <= c <= 'z' || 'A' <= c <= 'Z'
  }

  /** A prefix with its colon, or nothing: a letter or underscore, then letters, digits, underscores, dots and dashes. */
  predicate IsLead(lead: string) {
    lead == "" ||
    (|lead| > 1 && lead[|lead| - 1] == ':' && (IsLetter(lead[0]) || lead[0] == '_')
     && forall i :: 0 < i < |lead| - 1 ==>
          IsLetter(lead[i]) || '0' <= lead[i] <= '9' || lead[i] == '_' || lead[i] == '.' || lead[i] == '-')
  }

  /** White space, `>` or `/>`, and then anything. */
  predicate EndsName(tail: string) {
    tail != "" && (IsSpace(tail[0]) || tail[0] == '>' || (tail[0] == '/' && |tail| > 1 && tail[1] == '>'))
  }

  ghost predicate IsRootTag(s: string) {
    exists lead, name, tail ::
      IsLead(lead) && InEitherCase(name, "svg") && EndsName(tail) && s == "<" + (lead + (name + tail))
  }

  lemma LowerIsEitherCase(c: char, p: char)
    requires !('A' <= p <= 'Z')
    ensures Lower(c) == p <==> EitherCase(c, p)
  {
  }

  lemma SvgNameParts(s: string)
    ensures SvgName(s) <==> |s| > 3 && InEitherCase(s[..3], "svg") && EndsName(s[3..])
  {
    if |s| > 3 {
      LowerIsEitherCase(s[0], 's');
      LowerIsEitherCase(s[1], 'v');
      LowerIsEitherCase(s[2], 'g');
      assert StartsLike(s, "svg") <==> Lower(s[0]) == 's' && Lower(s[1]) == 'v' && Lower(s[2]) == 'g';
      assert "svg"[0] == 's' && "svg"[1] == 'v' && "svg"[2] == 'g';
    }
  }

  lemma ColonAt(p: string, t: string)
    ensures var s := "<" + ((p + ":") + t);
      |s| > |p| + 1 && s[|p| + 1] == ':' && s[1..|p| + 1] == p && s[|p| + 2..] == t
  {
  }

  lemma AtColon(s: string, k: nat)
    requires 0 < k < |s| && s[0] == '<' && s[k] == ':'
    ensures s == "<" + ((s[1..k] + ":") + s[k + 1..])
  {
  }

  lemma NameWithTail(name: string, tail: string)
    requires InEitherCase(name, "svg") && EndsName(tail)
    ensures SvgName(name + tail)
  {
    assert (name + tail)[..3] == name && (name + tail)[3..] == tail;
    SvgNameParts(name + tail);
  }

  lemma TagWithPrefix(p: string, t: string)
    requires IsPrefix(p) && SvgName(t)
    ensures SvgRoot("<" + ((p + ":") + t))
  {
    ColonAt(p, t);
  }

  lemma TagFromName(lead: string, name: string, tail: string)
    requires IsLead(lead) && InEitherCase(name, "svg") && EndsName(tail)
    ensures SvgRoot("<" + (lead + (name + tail)))
  {
    NameWithTail(name, tail);
    if lead == "" {
      assert ("<" + ("" + (name + tail)))[1..] == name + tail;
    } else {
      var p, colon := SplitLast(lead);
      assert forall i :: 0 <= i < |p| ==> IsNamePart(p[i]);
      TagWithPrefix(p, name + tail);
      assert lead == p + ":";
    }
  }

  lemma TagParts(lead: string, t: string)
    requires IsLead(lead) && SvgName(t)
    ensures IsRootTag("<" + (lead + t))
  {
    SvgNameParts(t);
    var name, tail := t[..3], t[3..];
    assert t == name + tail;
  }

  lemma PrefixIsLead(p: string)
    requires IsPrefix(p)
    ensures IsLead(p + ":")
  {
    assert forall i :: 0 <= i < |p| ==> (p + ":")[i] == p[i];
  }

  lemma NameFromTag(s: string)
    requires SvgRoot(s)
    ensures IsRootTag(s)
  {
    if SvgName(s[1..]) {
      TagParts("", s[1..]);
      assert s == "<" + ("" + s[1..]);
    } else {
      var k :| 0 < k < |s| && s[k] == ':' && IsPrefix(s[1..k]) && SvgName(s[k + 1..]);
      PrefixIsLead(s[1..k]);
      TagParts(s[1..k] + ":", s[k + 1..]);
      AtColon(s, k);
    }
  }

  /** The root pattern: an opening svg tag in either case, with or without a prefix. */
  lemma RootIsTag(s: string)
    ensures SvgRoot(s) <==> IsRootTag(s)
  {
    if SvgRoot(s) {
      NameFromTag(s);
    }
    if IsRootTag(s) {
      var lead, name, tail :| IsLead(lead) && InEitherCase(name, "svg") && EndsName(tail) && s == "<" + (lead + (name + tail));
      TagFromName(lead, name, tail);
    }
  }

  /** White space, `[` or `>`, and then anything. */
  predicate EndsDoctypeName(tail: string) {
    tail != "" && (IsSpace(tail[0]) || tail[0] == '[' || tail[0] == '>')
  }

  ghost predicate IsDoctypeStart(s: string) {
    exists word, gap, name, tail ::
      && InEitherCase(word, "<!doctype") && gap != "" && Blank(gap)
      && InEitherCase(name, "svg") && EndsDoctypeName(tail)
      && s == word + (gap + (name + tail))
  }

  lemma StartsInEitherCase(s: string, pattern: string)
    requires forall i :: 0 <= i < |pattern| ==> !('A' <= pattern[i] <= 'Z')
    ensures StartsLike(s, pattern) <==> |s| >= |pattern| && InEitherCase(s[..|pattern|], pattern)
  {
    if |s| >= |pattern| {
      forall i | 0 <= i < |pattern|
        ensures Lower(s[i]) == pattern[i] <==> EitherCase(s[..|pattern|][i], pattern[i])
      {
        LowerIsEitherCase(s[i], pattern[i]);
      }
    }
  }

  lemma StartFromParts(word: string, gap: string, name: string, tail: string)
    requires InEitherCase(word, "<!doctype") && gap != "" && Blank(gap)
    requires InEitherCase(name, "svg") && EndsDoctypeName(tail)
    ensures StartsSvgDoctype(word + (gap + (name + tail)))
  {
    var s, rest := word + (gap + (name + tail)), name + tail;
    assert s[..|DOCTYPE|] == word && s[|DOCTYPE|..] == gap + rest;
    StartsInEitherCase(s, DOCTYPE);
    StartsInEitherCase(rest, "svg");
    assert rest[..3] == name && rest[3] == tail[0];
    assert "svg"[0] == 's';
    assert EitherCase(name[0], 's');
    TrimStartBlank(gap, rest);
    assert TrimStart(rest) == rest;
  }

  lemma GapIsThere(s: string, gap: string, rest: string)
    requires s == gap + rest && s != "" && IsSpace(s[0]) && rest != "" && !IsSpace(rest[0])
    ensures gap != ""
  {
    assert "" + rest == rest;
  }

  /** The doctype pattern: the word, white space, svg in either case, and an end of the name. */
  lemma DoctypeStartIsWritten(s: string)
    ensures StartsSvgDoctype(s) <==> IsDoctypeStart(s)
  {
    if StartsSvgDoctype(s) {
      var d := |DOCTYPE|;
      var gap := TrimStartSplits(s[d..]);
      var rest := TrimStart(s[d..]);
      StartsInEitherCase(s, DOCTYPE);
      StartsInEitherCase(rest, "svg");
      assert s[d..][0] == s[d];
      GapIsThere(s[d..], gap, rest);
      assert s == s[..d] + (gap + (rest[..3] + rest[3..]));
      assert EndsDoctypeName(rest[3..]);
    }
    if IsDoctypeStart(s) {
      var word, gap, name, tail :| InEitherCase(word, "<!doctype") && gap != "" && Blank(gap)
        && InEitherCase(name, "svg") && EndsDoctypeName(tail) && s == word + (gap + (name + tail));
      StartFromParts(word, gap, name, tail);
    }
  }

  // ---- items in front change nothing ----

  lemma {:induction false} SkipRun(x: string, s: string)
    requires IsSpaceRun(x)
    ensures SkipSpace(x + s) == SkipSpace(s)
  {
    if x == "" {
      assert x + s == s;
    } else {
      assert (x + s)[1..] == x[1..] + s;
      SkipRun(x[1..], s);
    }
  }

  lemma OccursAppend(pattern: string, x: string, s: string, k: nat)
    requires k + |pattern| <= |x|
    ensures Occurs(pattern, x + s, k) <==> Occurs(pattern, x, k)
  {
    assert (x + s)[k..k + |pattern|] == x[k..k + |pattern|];
  }

  lemma BracketedLength(x: string, s: string, open: string, close: string)
    requires Bracketed(x, open, close)
    ensures Occurs(open, x + s, 0) && IndexOf(x + s, close, |open|) == |x| - |close|
  {
    OccursAppend(open, x, s, 0);
    forall k: nat | |open| <= k <= |x| - |close|
      ensures Occurs(close, x + s, k) <==> Occurs(close, x, k)
    {
      OccursAppend(close, x, s, k);
    }
  }

  lemma DoctypeStays(x: string, s: string)
    requires StartsSvgDoctype(x)
    ensures StartsSvgDoctype(x + s)
  {
    assert (x + s)[|DOCTYPE|..] == x[|DOCTYPE|..] + s;
    TrimStartAppend(x[|DOCTYPE|..], s);
  }

  lemma DoctypeLength(x: string, s: string)
    requires IsSvgDoctype(x)
    ensures StartsSvgDoctype(x + s) && DoctypeEnd(x + s, 0) == |x| - 1
  {
    DoctypeStays(x, s);
    DoctypeIsPieces(x);
    forall k | 0 <= k < |x|
      ensures EndsAt(x + s, k) <==> EndsAt(x, k)
    {
      assert (x + s)[..k] == x[..k];
    }
  }

  lemma DoctypeIsNoOther(s: string)
    requires StartsSvgDoctype(s)
    ensures !Occurs("<!--", s, 0) && !Occurs("<?", s, 0)
  {
    assert Lower(s[1]) == DOCTYPE[1] && Lower(s[2]) == DOCTYPE[2];
    if |s| >= 4 {
      assert s[0..4][2] == s[2];
    }
    assert s[0..2][1] == s[1];
  }

  /** An item that is no white space is skipped as a whole, whatever follows. */
  lemma ItemIsSkipped(x: string, s: string)
    requires IsComment(x) || IsInstruction(x) || IsSvgDoctype(x)
    ensures SkipSpace(x + s) == x + s && ItemLength(x + s) == |x| > 0
  {
    if IsComment(x) {
      BracketedLength(x, s, "<!--", "-->");
    } else if IsInstruction(x) {
      BracketedLength(x, s, "<?", "?>");
      assert (x + s)[1] == x[1] == '?';
    } else {
      DoctypeLength(x, s);
      DoctypeIsNoOther(x + s);
      assert Lower(x[0]) == DOCTYPE[0] == '<';
    }
  }

  /** Putting one more item in front never changes the verdict. */
  lemma ItemInFront(x: string, s: string)
    requires IsItem(x)
    ensures Recognise(x + s) == Recognise(s)
  {
    if IsSpaceRun(x) {
      SkipRun(x, s);
    } else {
      ItemIsSkipped(x, s);
      assert (x + s)[|x|..] == s;
    }
  }

  lemma {:induction false} ItemsInFront(items: seq<string>, s: string)
    requires AllItems(items)
    ensures Recognise(Concat(items) + s) == Recognise(s)
  {
    if items == [] {
      assert Concat(items) + s == s;
    } else {
      assert Concat(items) + s == items[0] + (Concat(items[1..]) + s);
      ItemInFront(items[0], Concat(items[1..]) + s);
      ItemsInFront(items[1..], s);
    }
  }

  /** After the `<` of a root tag comes a name, so it is neither a comment nor an instruction nor a doctype. */
  lemma RootStarts(root: string)
    requires SvgRoot(root)
    ensures |root| > 1 && root[0] == '<' && IsNameStart(root[1])
  {
    if SvgName(root[1..]) {
      assert Lower(root[1..][0]) == "svg"[0];
    } else {
      var k :| 0 < k < |root| && root[k] == ':' && IsPrefix(root[1..k]) && SvgName(root[k + 1..]);
      assert IsNameStart(root[1..k][0]);
    }
  }

  lemma NameIsNoItem(s: string)
    requires |s| > 1 && s[0] == '<' && IsNameStart(s[1])
    ensures ItemLength(s) == 0 && SkipSpace(s) == s
  {
    assert s[0..2][1] == s[1];
    if |s| >= 4 {
      assert s[0..4][1] == s[1];
    }
    assert Lower(s[1]) != DOCTYPE[1];
  }

  lemma RootIsRecognised(root: string)
    requires SvgRoot(root)
    ensures Recognise(root)
  {
    RootStarts(root);
    NameIsNoItem(root);
  }

  // ---- what is skipped is an item ----

  lemma {:induction false} QuotesPrefix(s: string, n: nat, k: nat)
    requires k < n <= |s|
    ensures EndsAt(s[..n], k) <==> EndsAt(s, k)
  {
    assert s[..n][..k] == s[..k];
  }

  /** The doctype pattern is complete before the first `>` can end it. */
  lemma DoctypeIsWhole(s: string, n: nat)
    requires StartsSvgDoctype(s) && 0 < n <= |s| && s[n - 1] == '>'
    ensures StartsSvgDoctype(s[..n])
  {
    var d := |DOCTYPE|;
    var gap := TrimStartSplits(s[d..]);
    var rest := TrimStart(s[d..]);
    var m := d + |gap|;
    assert s == s[..d] + gap + rest;
    forall i | 0 <= i < m + 3
      ensures s[i] != '>'
    {
      if i < d {
        assert Lower(s[i]) == DOCTYPE[i];
      } else if i < m {
        assert s[i] == gap[i - d];
      } else {
        assert s[i] == rest[i - m];
        assert Lower(rest[i - m]) == "svg"[i - m];
      }
    }
    var kept := rest[..n - m];
    assert s[..n][d..] == gap + kept;
    TrimStartBlank(gap, kept);
    assert kept[0] == rest[0];
    assert TrimStart(kept) == kept;
  }

  lemma PrefixBracketed(s: string, open: string, close: string, end: nat)
    requires Occurs(open, s, 0) && close != "" && IndexOf(s, close, |open|) == end
    ensures Bracketed(s[..end + |close|], open, close)
  {
    var x := s[..end + |close|];
    assert s == x + s[end + |close|..];
    OccursAppend(open, x, s[end + |close|..], 0);
    forall k: nat | |open| <= k <= end
      ensures Occurs(close, x, k) <==> Occurs(close, s, k)
    {
      OccursAppend(close, x, s[end + |close|..], k);
    }
  }

  lemma LeadingItem(s: string)
    requires ItemLength(s) > 0
    ensures IsItem(s[..ItemLength(s)])
  {
    var n := ItemLength(s);
    if Occurs("<!--", s, 0) {
      PrefixBracketed(s, "<!--", "-->", n - 3);
    } else if Occurs("<?", s, 0) {
      PrefixBracketed(s, "<?", "?>", n - 2);
    } else {
      DoctypeIsWhole(s, n);
      forall k | 0 <= k < n
        ensures EndsAt(s[..n], k) <==> EndsAt(s, k)
      {
        QuotesPrefix(s, n, k);
      }
      DoctypeIsPieces(s[..n]);
    }
  }

  lemma {:induction false} SkipSpaceSplits(s: string) returns (space: string)
    ensures s == space + SkipSpace(s) && IsSpaceRun(space)
    ensures SkipSpace(SkipSpace(s)) == SkipSpace(s)
  {
    if s != "" && IsDocumentSpace(s[0]) {
      var more := SkipSpaceSplits(s[1..]);
      space := [s[0]] + more;
      HeadAndTail(s, more, SkipSpace(s[1..]));
    } else {
      space := "";
    }
  }

  lemma RecogniseSkips(s: string)
    ensures Recognise(SkipSpace(s)) == Recognise(s)
  {
    var space := SkipSpaceSplits(s);
  }

  lemma RecogniseStep(s: string, t: string)
    requires t == SkipSpace(s) && Recognise(s)
    ensures ItemLength(t) == 0 ==> SvgRoot(t)
    ensures ItemLength(t) != 0 ==> ItemLength(t) > 0 && Recognise(t[ItemLength(t)..])
  {
  }

  lemma ConcatTwo(space: string, item: string, more: seq<string>)
    ensures Concat([space, item] + more) == space + (item + Concat(more))
  {
    var items := [space, item] + more;
    assert items[1..] == [item] + more;
    assert ([item] + more)[1..] == more;
  }

  lemma ItemsGrow(space: string, item: string, more: seq<string>, root: string)
    requires IsSpaceRun(space) && IsItem(item) && AllItems(more)
    ensures AllItems([space, item] + more)
    ensures Concat([space, item] + more) + root == space + (item + (Concat(more) + root))
  {
    ConcatTwo(space, item, more);
    Associative(space, item + Concat(more), root);
    Associative(item, Concat(more), root);
    var items := [space, item] + more;
    forall i | 0 <= i < |items|
      ensures IsItem(items[i])
    {
      if i >= 2 {
        assert items[i] == more[i - 2];
      }
    }
  }

  lemma ItemsStop(space: string, root: string)
    requires IsSpaceRun(space)
    ensures AllItems([space]) && Concat([space]) + root == space + root
  {
    assert Concat([space]) == space + Concat([]);
  }

  /** White space and an item off the front of what the recogniser accepts. */
  lemma NextItem(s: string) returns (space: string, item: string, tail: string)
    requires Recognise(s) && ItemLength(SkipSpace(s)) != 0
    ensures s == space + (item + tail) && |tail| < |s|
    ensures IsSpaceRun(space) && IsItem(item) && Recognise(tail)
  {
    var t := SkipSpace(s);
    RecogniseStep(s, t);
    LeadingItem(t);
    item, tail := CutAt(t, ItemLength(t));
    space := SkipSpaceSplits(s);
  }

  lemma {:induction false} RecognisedHasItems(s: string) returns (items: seq<string>, root: string)
    requires Recognise(s)
    ensures AllItems(items) && SvgRoot(root) && s == Concat(items) + root
    decreases |s|
  {
    if ItemLength(SkipSpace(s)) == 0 {
      var space := SkipSpaceSplits(s);
      RecogniseStep(s, SkipSpace(s));
      items, root := [space], SkipSpace(s);
      ItemsStop(space, root);
    } else {
      var space, item, tail := NextItem(s);
      var more: seq<string>;
      more, root := RecognisedHasItems(tail);
      items := [space, item] + more;
      ItemsGrow(space, item, more, root);
    }
  }

  /** The recogniser accepts exactly the texts of the grammar. */
  lemma RecogniserIsGrammar(code: string)
    ensures Recognise(code) <==> IsSvgDocument(code)
  {
    if Recognise(code) {
      var items, root := RecognisedHasItems(code);
    }
    if IsSvgDocument(code) {
      var items: seq<string>, root: string :| AllItems(items) && SvgRoot(root) && code == Concat(items) + root;
      ItemsInFront(items, root);
      RootIsRecognised(root);
    }
  }

  /** An svg tag in either case, with or without a prefix, is accepted behind any items. */
  lemma TagIsAccepted(items: seq<string>, lead: string, name: string, tail: string)
    requires AllItems(items) && IsLead(lead) && InEitherCase(name, "svg") && EndsName(tail)
    ensures Recognise(Concat(items) + ("<" + (lead + (name + tail))))
  {
    TagFromName(lead, name, tail);
    RecogniserIsGrammar(Concat(items) + ("<" + (lead + (name + tail))));
  }

  // ---- the cursor ----

  lemma SkipSpaceAt(source: string, index: nat)
    requires index <= |source|
    ensures SkipSpace(source[index..])
         == if index < |source| && IsDocumentSpace(source[index]) then SkipSpace(source[index + 1..]) else source[index..]
  {
    if index < |source| {
      assert source[index..][1..] == source[index + 1..];
    }
  }

  /** `skipDocumentWhitespace` */
  method SkipDocumentWhitespace(source: string, start: nat) returns (index: nat)
    requires start <= |source|
    ensures start <= index <= |source|
    ensures source[index..] == SkipSpace(source[start..])
  {
    index := start;
    while index < |source|
      invariant start <= index <= |source|
      invariant SkipSpace(source[start..]) == SkipSpace(source[index..])
    {
      SkipSpaceAt(source, index);
      if !IsDocumentSpace(source[index]) {
        break;
      }
      index := index + 1;
    }
    SkipSpaceAt(source, index);
  }

  lemma {:induction false} IndexOfShift(code: string, pattern: string, cursor: nat, from: nat)
    requires cursor <= |code|
    ensures IndexOf(code, pattern, cursor + from)
         == if IndexOf(code[cursor..], pattern, from) < 0 then -1 else cursor + IndexOf(code[cursor..], pattern, from)
    decreases |code| - from
  {
    if cursor + from <= |code| {
      if cursor + from + |pattern| <= |code| {
        assert code[cursor..][from..from + |pattern|] == code[cursor + from..cursor + from + |pattern|];
      }
      IndexOfShift(code, pattern, cursor, from + 1);
    }
  }

  lemma OccursShift(code: string, pattern: string, cursor: nat)
    requires cursor <= |code|
    ensures Occurs(pattern, code, cursor) <==> Occurs(pattern, code[cursor..], 0)
  {
    if cursor + |pattern| <= |code| {
      assert code[cursor..][0..|pattern|] == code[cursor..cursor + |pattern|];
    }
  }

  /** The loop that looks for the end of a doctype. */
  method FindDoctypeEnd(code: string, cursor: nat) returns (end: int)
    requires cursor <= |code|
    ensures end == if DoctypeEnd(code[cursor..], 0) < 0 then -1 else cursor + DoctypeEnd(code[cursor..], 0)
  {
    var quote := "";
    var subsetDepth := 0;
    end := -1;
    ghost var s := code[cursor..];
    assert s[..0] == "";
    for index := cursor to |code|
      invariant Quoting(quote, subsetDepth) == Scan(OUTSIDE, s[..index - cursor])
      invariant forall k :: 0 <= k < index - cursor ==> !EndsAt(s, k)
      invariant |quote| <= 1 && end == -1
    {
      var character := code[index];
      assert s[..index - cursor + 1][..index - cursor] == s[..index - cursor];
      assert s[index - cursor] == character;
      if quote != "" {
        if [character] == quote {
          quote := "";
        }
        continue;
      }
      if character == '"' || character == '\'' {
        quote := [character];
        continue;
      }
      if character == '[' {
        subsetDepth := subsetDepth + 1;
        continue;
      }
      if character == ']' && subsetDepth > 0 {
        subsetDepth := subsetDepth - 1;
        continue;
      }
      if character == '>' && subsetDepth == 0 {
        assert EndsAt(s, index - cursor);
        return index;
      }
    }
  }

  /** The cursor stands past white space in front of s, a rest of the code with the code's verdict. */
  ghost predicate StandsOn(code: string, cursor: nat, s: string) {
    cursor <= |code| && s == code[cursor..] && SkipSpace(s) == s && Recognise(s) == Recognise(code)
  }

  /** Skipping an item and the white space behind it keeps the verdict and moves the cursor forward. */
  lemma ItemPassed(code: string, cursor: nat, s: string, end: nat, next: nat)
    requires StandsOn(code, cursor, s)
    requires ItemLength(s) > 0 && end == cursor + ItemLength(s) <= next <= |code|
    requires code[next..] == SkipSpace(code[end..])
    ensures StandsOn(code, next, code[next..]) && cursor < next
  {
    assert s[ItemLength(s)..] == code[end..];
    var space := SkipSpaceSplits(code[end..]);
    RecogniseSkips(code[end..]);
  }

  lemma ItemUnfinished(s: string)
    requires SkipSpace(s) == s && ItemLength(s) < 0
    ensures !Recognise(s)
  {
  }

  /** The length of the item at the cursor, in positions of the whole code. */
  lemma ItemAt(code: string, cursor: nat)
    requires cursor <= |code|
    ensures ItemLength(code[cursor..]) ==
      if Occurs("<!--", code, cursor) then
        if IndexOf(code, "-->", cursor + 4) < 0 then -1 else IndexOf(code, "-->", cursor + 4) + 3 - cursor
      else if Occurs("<?", code, cursor) then
        if IndexOf(code, "?>", cursor + 2) < 0 then -1 else IndexOf(code, "?>", cursor + 2) + 2 - cursor
      else if StartsSvgDoctype(code[cursor..]) then
        if DoctypeEnd(code[cursor..], 0) < 0 then -1 else DoctypeEnd(code[cursor..], 0) + 1
      else 0
  {
    OccursShift(code, "<!--", cursor);
    OccursShift(code, "<?", cursor);
    IndexOfShift(code, "-->", cursor, 4);
    IndexOfShift(code, "?>", cursor, 2);
  }

  lemma NoItem(code: string, cursor: nat)
    requires cursor <= |code| && StandsOn(code, cursor, code[cursor..])
    requires ItemLength(code[cursor..]) == 0
    ensures Recognise(code) == SvgRoot(code[cursor..])
  {
  }

  /** The three branches of the loop: the end of the item at the cursor, 0 for none, -1 when it does not end. */
  method ItemEnd(code: string, cursor: nat) returns (end: int)
    requires cursor <= |code|
    ensures end == var n := ItemLength(code[cursor..]); if n <= 0 then n else cursor + n
  {
    ItemAt(code, cursor);
    if Occurs("<!--", code, cursor) {
      end := IndexOf(code, "-->", cursor + 4);
      return if end < 0 then -1 else end + 3;
    }
    if Occurs("<?", code, cursor) {
      end := IndexOf(code, "?>", cursor + 2);
      return if end < 0 then -1 else end + 2;
    }
    if StartsSvgDoctype(code[cursor..]) {
      end := FindDoctypeEnd(code, cursor);
      return if end < 0 then -1 else end + 1;
    }
    end := 0;
  }

  /** `hasSVGDocumentRoot` */
  method HasSVGDocumentRoot(code: string) returns (svg: bool)
    ensures svg <==> IsSvgDocument(code)
  {
    RecogniserIsGrammar(code);
    var cursor := SkipDocumentWhitespace(code, 0);
    ghost var space := SkipSpaceSplits(code);
    assert code[0..] == code;
    RecogniseSkips(code);
    while cursor < |code|
      invariant cursor <= |code| && StandsOn(code, cursor, code[cursor..])
      decreases |code| - cursor
    {
      var end := ItemEnd(code, cursor);
      if end < 0 {
        ItemUnfinished(code[cursor..]);
        return false;
      }
      if end == 0 {
        break;
      }
      var next := SkipDocumentWhitespace(code, end);
      ItemPassed(code, cursor, code[cursor..], end, next);
      cursor := next;
    }
    ItemAt(code, cursor);
    NoItem(code, cursor);
    svg := SvgRoot(code[cursor..]);
  }
}
