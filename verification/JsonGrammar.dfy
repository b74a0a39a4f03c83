/**
 * JSON texts as RFC 8259 writes them (section 2 for structure and white space, 4 for objects,
 * 5 for arrays, 6 for numbers, 7 for strings), and why counting braces outside strings is
 * enough to find where a printed object ends.
 */
module JsonGrammar {
  import opened JsText
  import opened JsonScanner

  /** One character of a string and the way it is written. */
  datatype Char =
    | Plain(c: char)
    | Short(c: char)
    | Hex(digits: string)

  /** A JSON value together with every choice its printer made: escapes, white space, digits. */
  datatype Json =
    | Token(text: string)
    | Str(chars: seq<Char>)
    | Arr(pad: string, items: Items)
    | Obj(pad: string, members: Members)

  datatype Items =
    | NoItems
    | Item(before: string, value: Json, after: string, more: Items)

  datatype Members =
    | NoMembers
    | Member(before: string, key: seq<Char>, left: string, right: string, value: Json, after: string, more: Members)

  // ---- well-formedness ----

  predicate IsJsonSpace(s: string) {
    forall i :: 0 <= i < |s| ==> s[i] == ' ' || s[i] == '\t' || s[i] == '\n' || s[i] == '\r'
  }

  predicate IsHexDigit(c: char) {
    '0' <= c <= '9' || 'a' <= c <= 'f' || 'A' <= c <= 'F'
  }

  predicate ValidChar(c: Char) {
    match c
    case Plain(x) => x != '"' && x != '\\' && x >= ' '
    case Short(x) => x in "\"\\/bfnrt"
    case Hex(digits) => |digits| == 4 && forall i :: 0 <= i < 4 ==> IsHexDigit(digits[i])
  }

  predicate ValidChars(chars: seq<Char>) {
    forall i :: 0 <= i < |chars| ==> ValidChar(chars[i])
  }

  /** Every number of section 6, and more: any text of the characters numbers are written with. */
  predicate IsNumberText(s: string) {
    s != "" && forall i :: 0 <= i < |s| ==> '0' <= s[i] <= '9' || s[i] in "+-.eE"
  }

  predicate Valid(v: Json) {
    match v
    case Token(text) => text == "null" || text == "true" || text == "false" || IsNumberText(text)
    case Str(chars) => ValidChars(chars)
    case Arr(pad, items) => IsJsonSpace(pad) && ValidItems(items)
    case Obj(pad, members) => IsJsonSpace(pad) && ValidMembers(members)
  }

  predicate ValidItems(items: Items) {
    match items
    case NoItems => true
    case Item(before, value, after, more) =>
      IsJsonSpace(before) && Valid(value) && IsJsonSpace(after) && ValidItems(more)
  }

  predicate ValidMembers(members: Members) {
    match members
    case NoMembers => true
    case Member(before, key, left, right, value, after, more) =>
      && IsJsonSpace(before) && ValidChars(key) && IsJsonSpace(left) && IsJsonSpace(right)
      && Valid(value) && IsJsonSpace(after) && ValidMembers(more)
  }

  // ---- printing ----

  function PrintChar(c: Char): string {
    match c
    case Plain(x) => [x]
    case Short(x) => ['\\', x]
    case Hex(digits) => "\\u" + digits
  }

  function PrintChars(chars: seq<Char>): string {
    if chars == [] then "" else PrintChar(chars[0]) + PrintChars(chars[1..])
  }

  function PrintString(chars: seq<Char>): string {
    "\"" + PrintChars(chars) + "\""
  }

  function Print(v: Json): string {
    match v
    case Token(text) => text
    case Str(chars) => PrintString(chars)
    case Arr(pad, items) => "[" + pad + PrintItems(items) + "]"
    case Obj(pad, members) => "{" + (pad + PrintMembers(members)) + "}"
  }

  function PrintItems(items: Items): string {
    match items
    case NoItems => ""
    case Item(before, value, after, more) =>
      before + Print(value) + after + (if more.NoItems? then "" else ",") + PrintItems(more)
  }

  function PrintMembers(members: Members): string {
    match members
    case NoMembers => ""
    case Member(before, key, left, right, value, after, more) =>
      before + PrintString(key) + left + ":" + right + Print(value) + after
        + (if more.NoMembers? then "" else ",") + PrintMembers(more)
  }

  // ---- the scanner walks over printed values ----

  /** Read at brace depth d, text ends where it began and never goes below d. */
  ghost predicate Passes(text: string, d: int) {
    && Run(Code(d), text) == Code(d)
    && forall k :: 0 <= k <= |text| ==> Run(Code(d), text[..k]).depth >= d
  }

  lemma PassesAppend(a: string, b: string, d: int)
    requires Passes(a, d) && Passes(b, d)
    ensures Passes(a + b, d)
  {
    RunAppend(Code(d), a, b);
    forall k | 0 <= k <= |a + b|
      ensures Run(Code(d), (a + b)[..k]).depth >= d
    {
      if k <= |a| {
        assert (a + b)[..k] == a[..k];
      } else {
        assert (a + b)[..k] == a + b[..k - |a|];
        RunAppend(Code(d), a, b[..k - |a|]);
      }
    }
  }

  /** No quote and no brace: the scanner does not notice the text. */
  predicate Calm(text: string) {
    forall i :: 0 <= i < |text| ==> text[i] != '"' && text[i] != '{' && text[i] != '}'
  }

  lemma {:induction false} RunCalm(text: string, d: int)
    requires Calm(text)
    ensures Run(Code(d), text) == Code(d)
  {
    if text != "" {
      RunCalm(text[..|text| - 1], d);
    }
  }

  lemma CalmPasses(text: string, d: int)
    requires Calm(text)
    ensures Passes(text, d)
  {
    RunCalm(text, d);
    forall k | 0 <= k <= |text|
      ensures Run(Code(d), text[..k]).depth >= d
    {
      RunCalm(text[..k], d);
    }
  }

  function Inside(d: int): Scan {
    Scan(d, true, false)
  }

  lemma RunOne(s: Scan, c: char)
    ensures Run(s, [c]) == Advance(s, c)
  {
    assert [c][..0] == "";
    assert Run(s, "") == s;
  }

  lemma RunCons(s: Scan, c: char, text: string)
    ensures Run(s, [c] + text) == Run(Advance(s, c), text)
  {
    RunAppend(s, [c], text);
    RunOne(s, c);
  }

  lemma RunChar(c: Char, d: int)
    requires ValidChar(c)
    ensures Run(Inside(d), PrintChar(c)) == Inside(d)
  {
    match c
    case Plain(x) =>
      RunOne(Inside(d), x);
    case Short(x) =>
      assert [x] + "" == [x];
      assert PrintChar(c) == ['\\'] + [x];
      RunCons(Inside(d), '\\', [x]);
      RunOne(Scan(d, true, true), x);
    case Hex(digits) =>
      var text := "\\u" + digits;
      assert text == ['\\'] + (['u'] + ([digits[0]] + ([digits[1]] + ([digits[2]] + [digits[3]]))));
      RunCons(Inside(d), '\\', ['u'] + ([digits[0]] + ([digits[1]] + ([digits[2]] + [digits[3]]))));
      RunCons(Scan(d, true, true), 'u', [digits[0]] + ([digits[1]] + ([digits[2]] + [digits[3]])));
      RunCons(Inside(d), digits[0], [digits[1]] + ([digits[2]] + [digits[3]]));
      RunCons(Inside(d), digits[1], [digits[2]] + [digits[3]]);
      RunCons(Inside(d), digits[2], [digits[3]]);
      RunOne(Inside(d), digits[3]);
  }

  lemma {:induction false} RunChars(chars: seq<Char>, d: int)
    requires ValidChars(chars)
    ensures Run(Inside(d), PrintChars(chars)) == Inside(d)
  {
    if chars != [] {
      RunChar(chars[0], d);
      RunChars(chars[1..], d);
      RunAppend(Inside(d), PrintChar(chars[0]), PrintChars(chars[1..]));
    }
  }

  lemma {:induction false} CharsStayInside(chars: seq<Char>, d: int, k: nat)
    requires ValidChars(chars) && k <= |PrintChars(chars)|
    ensures Run(Inside(d), PrintChars(chars)[..k]).inString
    ensures Run(Inside(d), PrintChars(chars)[..k]).depth == d
  {
    if chars == [] {
      assert PrintChars(chars)[..k] == "";
    } else {
      var first, rest := PrintChar(chars[0]), PrintChars(chars[1..]);
      if k <= |first| {
        assert (first + rest)[..k] == first[..k];
        CharStaysInside(chars[0], d, k);
      } else {
        assert (first + rest)[..k] == first + rest[..k - |first|];
        RunChar(chars[0], d);
        RunAppend(Inside(d), first, rest[..k - |first|]);
        CharsStayInside(chars[1..], d, k - |first|);
      }
    }
  }

  lemma CharStaysInside(c: Char, d: int, k: nat)
    requires ValidChar(c) && k <= |PrintChar(c)|
    ensures Run(Inside(d), PrintChar(c)[..k]).inString
    ensures Run(Inside(d), PrintChar(c)[..k]).depth == d
  {
    var text := PrintChar(c);
    if k == |text| {
      assert text[..k] == text;
      RunChar(c, d);
    } else if k == 0 {
    } else if c.Hex? {
      assert text[..1] == ['\\'];
      RunOne(Inside(d), '\\');
      if k > 1 {
        assert text[..k] == ['\\'] + (['u'] + c.digits[..k - 2]);
        RunCons(Inside(d), '\\', ['u'] + c.digits[..k - 2]);
        RunCons(Scan(d, true, true), 'u', c.digits[..k - 2]);
        HexRun(c.digits[..k - 2], d);
      }
    } else {
      assert text[..1] == ['\\'];
      RunOne(Inside(d), '\\');
    }
  }

  lemma {:induction false} HexRun(digits: string, d: int)
    requires forall i :: 0 <= i < |digits| ==> IsHexDigit(digits[i])
    ensures Run(Inside(d), digits) == Inside(d)
  {
    if digits != "" {
      HexRun(digits[..|digits| - 1], d);
    }
  }

  lemma StringRun(chars: seq<Char>, d: int)
    requires ValidChars(chars)
    ensures Run(Code(d), PrintString(chars)) == Code(d)
  {
    var body := PrintChars(chars);
    assert PrintString(chars) == ['"'] + (body + ['"']);
    RunCons(Code(d), '"', body + ['"']);
    RunChars(chars, d);
    RunAppend(Inside(d), body, ['"']);
    RunOne(Inside(d), '"');
  }

  lemma StringPrefix(chars: seq<Char>, d: int, k: nat)
    requires ValidChars(chars) && k <= |PrintChars(chars)|
    ensures Run(Code(d), PrintString(chars)[..k + 1]).depth == d
  {
    assert PrintString(chars)[..k + 1] == ['"'] + PrintChars(chars)[..k];
    RunCons(Code(d), '"', PrintChars(chars)[..k]);
    CharsStayInside(chars, d, k);
  }

  lemma StringPasses(chars: seq<Char>, d: int)
    requires ValidChars(chars)
    ensures Passes(PrintString(chars), d)
  {
    var text := PrintString(chars);
    StringRun(chars, d);
    forall k | 0 <= k <= |text|
      ensures Run(Code(d), text[..k]).depth >= d
    {
      if k == |text| {
        assert text[..k] == text;
      } else if k > 0 {
        StringPrefix(chars, d, k - 1);
      }
    }
  }

  /** Braces around something that passes one level deeper. */
  lemma BracesOpen(inner: string, d: int, k: nat)
    requires Passes(inner, d + 1) && k <= |inner|
    ensures Run(Code(d), ("{" + inner + "}")[..k + 1]).depth >= d + 1
  {
    assert ("{" + inner + "}")[..k + 1] == ['{'] + inner[..k];
    RunCons(Code(d), '{', inner[..k]);
  }

  lemma BracesClose(inner: string, d: int)
    requires Passes(inner, d + 1)
    ensures Run(Code(d), "{" + inner + "}") == Code(d)
  {
    assert "{" + inner + "}" == ['{'] + (inner + ['}']);
    RunCons(Code(d), '{', inner + ['}']);
    RunAppend(Code(d + 1), inner, ['}']);
    RunOne(Code(d + 1), '}');
  }

  lemma BracesPass(inner: string, d: int)
    requires Passes(inner, d + 1)
    ensures Passes("{" + inner + "}", d)
  {
    var text := "{" + inner + "}";
    BracesClose(inner, d);
    forall k | 0 <= k <= |text|
      ensures Run(Code(d), text[..k]).depth >= d
    {
      if k == |text| {
        assert text[..k] == text;
      } else if k > 0 {
        BracesOpen(inner, d, k - 1);
      }
    }
  }

  lemma {:induction false} ValuePasses(v: Json, d: int)
    requires Valid(v)
    ensures Passes(Print(v), d)
    decreases v
  {
    match v
    case Token(text) =>
      CalmPasses(text, d);
    case Str(chars) =>
      StringPasses(chars, d);
    case Arr(pad, items) =>
      CalmPasses("[" + pad, d);
      ItemsPass(items, d);
      PassesAppend("[" + pad, PrintItems(items), d);
      CalmPasses("]", d);
      PassesAppend("[" + pad + PrintItems(items), "]", d);
    case Obj(pad, members) =>
      BodyPasses(pad, members, d + 1);
      BracesPass(pad + PrintMembers(members), d);
  }

  lemma {:induction false} BodyPasses(pad: string, members: Members, d: int)
    requires IsJsonSpace(pad) && ValidMembers(members)
    ensures Passes(pad + PrintMembers(members), d)
    decreases members, 1
  {
    CalmPasses(pad, d);
    MembersPass(members, d);
    PassesAppend(pad, PrintMembers(members), d);
  }

  lemma {:induction false} ItemsPass(items: Items, d: int)
    requires ValidItems(items)
    ensures Passes(PrintItems(items), d)
    decreases items
  {
    match items
    case NoItems =>
      CalmPasses("", d);
    case Item(before, value, after, more) =>
      var comma := if more.NoItems? then "" else ",";
      CalmPasses(before, d);
      ValuePasses(value, d);
      PassesAppend(before, Print(value), d);
      CalmPasses(after, d);
      PassesAppend(before + Print(value), after, d);
      CalmPasses(comma, d);
      PassesAppend(before + Print(value) + after, comma, d);
      ItemsPass(more, d);
      PassesAppend(before + Print(value) + after + comma, PrintItems(more), d);
  }

  lemma {:induction false} MembersPass(members: Members, d: int)
    requires ValidMembers(members)
    ensures Passes(PrintMembers(members), d)
    decreases members, 0
  {
    match members
    case NoMembers =>
      CalmPasses("", d);
    case Member(before, key, left, right, value, after, more) =>
      var comma := if more.NoMembers? then "" else ",";
      CalmPasses(before, d);
      StringPasses(key, d);
      var text := before + PrintString(key);
      PassesAppend(before, PrintString(key), d);
      CalmPasses(left, d);
      PassesAppend(text, left, d);
      CalmPasses(":", d);
      PassesAppend(text + left, ":", d);
      CalmPasses(right, d);
      PassesAppend(text + left + ":", right, d);
      ValuePasses(value, d);
      PassesAppend(text + left + ":" + right, Print(value), d);
      CalmPasses(after, d);
      PassesAppend(text + left + ":" + right + Print(value), after, d);
      CalmPasses(comma, d);
      PassesAppend(text + left + ":" + right + Print(value) + after, comma, d);
      MembersPass(more, d);
      PassesAppend(text + left + ":" + right + Print(value) + after + comma, PrintMembers(more), d);
  }

  /** A printed object is a shortest balanced text: its last character is the first that closes it. */
  lemma PrintedObjectIsDocument(v: Json)
    requires v.Obj? && Valid(v)
    ensures IsDocument(Print(v))
  {
    var inner := v.pad + PrintMembers(v.members);
    var text := "{" + inner + "}";
    BodyPasses(v.pad, v.members, 1);
    BracesClose(inner, 0);
    forall k | 0 < k < |text|
      ensures !Closed(Run(START, text[..k]))
    {
      BracesOpen(inner, 0, k - 1);
    }
  }

  ghost predicate AllObjects(vs: seq<Json>) {
    forall i :: 0 <= i < |vs| ==> vs[i].Obj? && Valid(vs[i])
  }

  function PrintAll(vs: seq<Json>): seq<string> {
    seq(|vs|, i requires 0 <= i < |vs| => Print(vs[i]))
  }

  /** Scanner and printer agree: any objects, printed any way, with any white space between them. */
  lemma PrintedObjectsAreExtracted(vs: seq<Json>, gaps: seq<string>)
    requires AllObjects(vs) && |gaps| == |vs| + 1 && AllBlank(gaps)
    ensures Extract(Weave(gaps, PrintAll(vs))) == Parts(PrintAll(vs), "")
  {
    var texts := PrintAll(vs);
    forall i | 0 <= i < |texts|
      ensures IsDocument(texts[i])
    {
      PrintedObjectIsDocument(vs[i]);
    }
    SplitIsFound(gaps, texts, "");
    assert Weave(gaps, texts) + "" == Weave(gaps, texts);
  }
}
