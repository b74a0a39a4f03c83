/** Conversation labels: one label tidied, a list cut down to six, and when doing it again changes nothing. */
module ConversationLabels {
  import opened Wrappers
  import opened JsText

  const MAX_LABELS := 6
  const MAX_LABEL_LENGTH := 24

  function StripHashes(s: string): string {
    if s != "" && s[0] == '#' then StripHashes(s[1..]) else s
  }

  /** Every run of white space becomes one blank. */
  function Collapse(s: string): string
    decreases |s|
  {
    if s == "" then ""
    else if IsSpace(s[0]) then
      TrimStartLength(s[1..]);
      " " + Collapse(TrimStart(s[1..]))
    else [s[0]] + Collapse(s[1..])
  }

  /** `normalizeConversationLabel` */
  function Normalize(value: string): string {
    Collapse(Trim(StripHashes(Trim(value))))
  }

  // ---- one label ----

  predicate Ends(s: string) {
    s == "" || (!IsSpace(s[0]) && !IsSpace(s[|s| - 1]))
  }

  lemma TrimEnds(s: string)
    ensures Ends(Trim(s))
  {
    var left := TrimStartSplits(s);
    var right := TrimEndSplits(TrimStart(s));
    assert Trim(s) != "" ==> Trim(s)[0] == TrimStart(s)[0];
  }

  /** White space only as single blanks. */
  predicate Single(s: string) {
    forall i :: 0 <= i < |s| && IsSpace(s[i]) ==> s[i] == ' ' && (i + 1 < |s| ==> !IsSpace(s[i + 1]))
  }

  lemma {:induction false} CollapseStarts(s: string)
    requires s != ""
    ensures Collapse(s) != "" && (!IsSpace(s[0]) ==> Collapse(s)[0] == s[0])
  {
  }

  lemma SingleCons(c: char, t: string)
    requires Single(t) && (IsSpace(c) ==> c == ' ' && (t == "" || !IsSpace(t[0])))
    ensures Single([c] + t)
  {
  }

  predicate EndsSolid(s: string) {
    s != "" && !IsSpace(s[|s| - 1])
  }

  lemma {:induction false} CollapseIsSingle(s: string)
    ensures Single(Collapse(s))
    ensures EndsSolid(s) ==> EndsSolid(Collapse(s))
    decreases |s|
  {
    if s != "" {
      if IsSpace(s[0]) {
        var t := TrimStart(s[1..]);
        var gap := TrimStartSplits(s[1..]);
        CollapseIsSingle(t);
        if t != "" {
          CollapseStarts(t);
        }
        SingleCons(' ', Collapse(t));
        SolidTail(s, gap, t);
      } else {
        CollapseIsSingle(s[1..]);
        SingleCons(s[0], Collapse(s[1..]));
        assert |s| > 1 ==> s[1..][|s| - 2] == s[|s| - 1];
      }
    }
  }

  lemma SolidTail(s: string, gap: string, t: string)
    requires s != "" && IsSpace(s[0]) && s[1..] == gap + t && Blank(gap)
    ensures EndsSolid(s) ==> EndsSolid(t)
  {
    if |s| > 1 {
      assert s[1..][|s| - 2] == s[|s| - 1];
      if t != "" {
        assert s[1..][|s| - 2] == t[|t| - 1];
      } else {
        assert s[1..] == gap;
      }
    }
  }

  lemma {:induction false} SingleCollapses(s: string)
    requires Single(s)
    ensures Collapse(s) == s
    decreases |s|
  {
    if s != "" {
      forall i | 0 <= i < |s[1..]| && IsSpace(s[1..][i])
        ensures s[1..][i] == ' ' && (i + 1 < |s[1..]| ==> !IsSpace(s[1..][i + 1]))
      {
        assert s[1..][i] == s[i + 1];
      }
      SingleCollapses(s[1..]);
      assert [s[0]] + s[1..] == s;
    }
  }

  lemma NormalizedShape(value: string)
    ensures Ends(Normalize(value)) && Single(Normalize(value))
  {
    var t := Trim(StripHashes(Trim(value)));
    TrimEnds(StripHashes(Trim(value)));
    CollapseIsSingle(t);
    if t != "" {
      CollapseStarts(t);
    }
  }

  lemma {:induction false} StripHashesShrinks(s: string)
    ensures |StripHashes(s)| <= |s|
    ensures s != "" && s[0] == '#' ==> |StripHashes(s)| < |s|
  {
    if s != "" && s[0] == '#' {
      StripHashesShrinks(s[1..]);
    }
  }

  lemma {:induction false} CollapseShrinks(s: string)
    ensures |Collapse(s)| <= |s|
    decreases |s|
  {
    if s != "" {
      if IsSpace(s[0]) {
        TrimStartLength(s[1..]);
        CollapseShrinks(TrimStart(s[1..]));
      } else {
        CollapseShrinks(s[1..]);
      }
    }
  }

  lemma TrimShrinks(s: string)
    ensures |Trim(s)| <= |s|
  {
    var left := TrimStartSplits(s);
    var right := TrimEndSplits(TrimStart(s));
  }

  /** A normalised label is left alone by a second normalisation exactly when it does not start with `#`. */
  lemma NormalizeTwice(value: string)
    ensures var entry := Normalize(value);
      Normalize(entry) == entry <==> (entry == "" || entry[0] != '#')
  {
    var entry := Normalize(value);
    NormalizedShape(value);
    TrimFixed(entry);
    if entry == "" || entry[0] != '#' {
      SingleCollapses(entry);
    } else {
      StripHashesShrinks(entry);
      TrimShrinks(StripHashes(entry));
      CollapseShrinks(Trim(StripHashes(entry)));
    }
  }

  // ---- what a label is normalised to ----

  predicate IsWord(w: string) {
    w != "" && forall i :: 0 <= i < |w| ==> !IsSpace(w[i])
  }

  predicate AreWords(words: seq<string>) {
    words != [] && forall i :: 0 <= i < |words| ==> IsWord(words[i])
  }

  predicate AreGaps(gaps: seq<string>, words: seq<string>) {
    |gaps| + 1 == |words| && forall i :: 0 <= i < |gaps| ==> gaps[i] != "" && Blank(gaps[i])
  }

  /** The words with the gaps between them. */
  function Spread(words: seq<string>, gaps: seq<string>): string
    requires |gaps| + 1 == |words|
  {
    if gaps == [] then words[0] else words[0] + (gaps[0] + Spread(words[1..], gaps[1..]))
  }

  /** The words with one blank between them. */
  function Spaced(words: seq<string>): string {
    if words == [] then ""
    else if |words| == 1 then words[0]
    else words[0] + (" " + Spaced(words[1..]))
  }

  predicate AreHashes(s: string) {
    forall i :: 0 <= i < |s| ==> s[i] == '#'
  }

  lemma {:induction false} CollapseWord(word: string, t: string)
    requires forall i :: 0 <= i < |word| ==> !IsSpace(word[i])
    ensures Collapse(word + t) == word + Collapse(t)
    decreases |word|
  {
    if word == "" {
      assert word + t == t;
    } else {
      assert (word + t)[1..] == word[1..] + t;
      CollapseWord(word[1..], t);
      assert [word[0]] + (word[1..] + Collapse(t)) == word + Collapse(t);
    }
  }

  lemma CollapseGap(gap: string, t: string)
    requires gap != "" && Blank(gap) && (t == "" || !IsSpace(t[0]))
    ensures Collapse(gap + t) == " " + Collapse(t)
  {
    assert (gap + t)[1..] == gap[1..] + t;
    TrimStartBlank(gap[1..], t);
  }

  lemma {:induction false} SpreadStarts(words: seq<string>, gaps: seq<string>)
    requires AreWords(words) && AreGaps(gaps, words)
    ensures Spread(words, gaps) != "" && Spread(words, gaps)[0] == words[0][0]
    ensures !IsSpace(Spread(words, gaps)[0]) && !IsSpace(Spread(words, gaps)[|Spread(words, gaps)| - 1])
    decreases |words|
  {
    if gaps != [] {
      SpreadStarts(words[1..], gaps[1..]);
    }
  }

  lemma {:induction false} SpreadCollapses(words: seq<string>, gaps: seq<string>)
    requires AreWords(words) && AreGaps(gaps, words)
    ensures Collapse(Spread(words, gaps)) == Spaced(words)
    decreases |words|
  {
    if gaps == [] {
      CollapseWord(words[0], "");
      assert words[0] + "" == words[0];
    } else {
      var rest := Spread(words[1..], gaps[1..]);
      SpreadStarts(words[1..], gaps[1..]);
      SpreadCollapses(words[1..], gaps[1..]);
      CollapseWord(words[0], gaps[0] + rest);
      CollapseGap(gaps[0], rest);
    }
  }

  lemma {:induction false} TrimEndBlank(s: string, gap: string)
    requires Blank(gap)
    ensures TrimEnd(s + gap) == TrimEnd(s)
    decreases |gap|
  {
    if gap == "" {
      assert s + gap == s;
    } else {
      assert (s + gap)[..|s + gap| - 1] == s + gap[..|gap| - 1];
      TrimEndBlank(s, gap[..|gap| - 1]);
    }
  }

  /** White space around a text with none at its ends is what `trim` takes off. */
  lemma TrimPadded(left: string, s: string, right: string)
    requires Blank(left) && Blank(right) && Ends(s)
    ensures Trim(left + s + right) == s
  {
    Associative(left, s, right);
    TrimStartBlank(left, s + right);
    if s == "" {
      assert s + right == right + "";
      TrimStartBlank(right, "");
    } else {
      TrimEndBlank(s, right);
    }
  }

  lemma {:induction false} HashesGo(hashes: string, s: string)
    requires AreHashes(hashes) && (s == "" || s[0] != '#')
    ensures StripHashes(hashes + s) == s
    decreases |hashes|
  {
    if hashes == "" {
      assert hashes + s == s;
    } else {
      assert (hashes + s)[1..] == hashes[1..] + s;
      HashesGo(hashes[1..], s);
    }
  }

  lemma BlankIsNoHash(gap: string, s: string)
    requires Blank(gap) && (gap != "" || s == "" || s[0] != '#')
    ensures gap + s == "" || (gap + s)[0] != '#'
  {
  }

  /** White space, hashes, white space and words between gaps: the words come out, with one blank between them. */
  lemma NormalizeSpells(left: string, hashes: string, mid: string, words: seq<string>, gaps: seq<string>, right: string)
    requires Blank(left) && AreHashes(hashes) && Blank(mid) && Blank(right)
    requires AreWords(words) && AreGaps(gaps, words)
    requires words[0][0] != '#' || (hashes != "" && mid != "")
    ensures Normalize(left + (hashes + (mid + Spread(words, gaps))) + right) == Spaced(words)
  {
    var text := Spread(words, gaps);
    SpreadStarts(words, gaps);
    SpreadCollapses(words, gaps);
    if hashes == "" {
      assert left + (hashes + (mid + text)) == (left + mid) + text;
      TrimPadded(left + mid, text, right);
      HashesGo("", text);
      assert "" + text == text;
    } else {
      TrimPadded(left, hashes + (mid + text), right);
      BlankIsNoHash(mid, text);
      HashesGo(hashes, mid + text);
      assert mid + text == mid + text + "";
    }
    TrimPadded("", text, "");
    assert "" + text + "" == text;
    if hashes != "" {
      TrimPadded(mid, text, "");
    }
  }

  /** Hashes between white space are nothing. */
  lemma NormalizeEmpty(left: string, hashes: string, right: string)
    requires Blank(left) && AreHashes(hashes) && Blank(right)
    ensures Normalize(left + hashes + right) == ""
  {
    TrimPadded(left, hashes, right);
    assert hashes + "" == hashes;
    HashesGo(hashes, "");
  }

  lemma {:induction false} TextHasWords(t: string) returns (words: seq<string>, gaps: seq<string>)
    requires t != "" && Ends(t)
    ensures AreWords(words) && AreGaps(gaps, words) && t == Spread(words, gaps)
    decreases |t|
  {
    var c, rest := t[0], t[1..];
    if rest == "" {
      words, gaps := [[c]], [];
    } else if !IsSpace(rest[0]) {
      assert rest[|rest| - 1] == t[|t| - 1];
      words, gaps := TextHasWords(rest);
      words, gaps := LongerWord(c, rest, words, gaps);
      assert t == [c] + rest;
    } else {
      var gap := TrimStartSplits(rest);
      var u := TrimStart(rest);
      assert u != "" by {
        assert rest[|rest| - 1] == t[|t| - 1];
        assert u == "" ==> rest == gap;
      }
      assert u[|u| - 1] == rest[|rest| - 1] == t[|t| - 1];
      words, gaps := TextHasWords(u);
      words, gaps := OneMoreWord([c], gap, u, words, gaps);
      assert t == [c] + (gap + u);
    }
  }

  lemma LongerWord(c: char, rest: string, words: seq<string>, gaps: seq<string>) returns (longer: seq<string>, same: seq<string>)
    requires !IsSpace(c) && AreWords(words) && AreGaps(gaps, words) && rest == Spread(words, gaps)
    ensures AreWords(longer) && AreGaps(same, longer) && [c] + rest == Spread(longer, same)
  {
    longer, same := [[c] + words[0]] + words[1..], gaps;
    assert longer[1..] == words[1..];
    if gaps != [] {
      Associative([c], words[0], gaps[0] + Spread(words[1..], gaps[1..]));
    }
  }

  lemma OneMoreWord(word: string, gap: string, rest: string, words: seq<string>, gaps: seq<string>)
    returns (more: seq<string>, wider: seq<string>)
    requires IsWord(word) && gap != "" && Blank(gap) && AreWords(words) && AreGaps(gaps, words) && rest == Spread(words, gaps)
    ensures AreWords(more) && AreGaps(wider, more) && word + (gap + rest) == Spread(more, wider)
  {
    more, wider := [word] + words, [gap] + gaps;
    assert more[1..] == words && wider[1..] == gaps;
  }

  lemma {:induction false} LeadingHashes(t: string) returns (hashes: string)
    ensures AreHashes(hashes) && t == hashes + StripHashes(t)
    ensures StripHashes(t) == "" || StripHashes(t)[0] != '#'
  {
    if t != "" && t[0] == '#' {
      var more := LeadingHashes(t[1..]);
      hashes := ['#'] + more;
      HeadAndTail(t, more, StripHashes(t[1..]));
    } else {
      hashes := "";
    }
  }

  /** Every label is of one of these two forms, so together they say what normalising comes to. */
  lemma EveryLabelIsSpelled(value: string)
    ensures
      || (exists left, hashes, right :: Blank(left) && AreHashes(hashes) && Blank(right) && value == left + hashes + right)
      || IsSpelled(value)
  {
    var left := TrimStartSplits(value);
    var right := TrimEndSplits(TrimStart(value));
    var t := Trim(value);
    assert value == left + t + right;
    var hashes := LeadingHashes(t);
    var u := StripHashes(t);
    if u == "" {
      assert t == hashes;
    } else {
      TrimEnds(value);
      assert u[|u| - 1] == t[|t| - 1];
      SpelledForm(value, left, hashes, u, right);
    }
  }

  ghost predicate IsForm(value: string, left: string, hashes: string, mid: string, words: seq<string>, gaps: seq<string>, right: string) {
    && Blank(left) && AreHashes(hashes) && Blank(mid) && Blank(right)
    && AreWords(words) && AreGaps(gaps, words)
    && (words[0][0] != '#' || (hashes != "" && mid != ""))
    && value == left + (hashes + (mid + Spread(words, gaps))) + right
  }

  ghost predicate IsSpelled(value: string) {
    exists left, hashes, mid, words, gaps, right :: IsForm(value, left, hashes, mid, words, gaps, right)
  }

  lemma SpelledForm(value: string, left: string, hashes: string, u: string, right: string)
    requires Blank(left) && AreHashes(hashes) && Blank(right) && value == left + (hashes + u) + right
    requires u != "" && u[0] != '#' && !IsSpace(u[|u| - 1])
    requires hashes == "" ==> !IsSpace(u[0])
    ensures IsSpelled(value)
  {
    var mid := TrimStartSplits(u);
    var t := TrimStart(u);
    assert t != "" by {
      assert t == "" ==> u == mid;
    }
    assert t[|t| - 1] == u[|u| - 1];
    var words, gaps := TextHasWords(t);
    SpreadStarts(words, gaps);
    assert mid == "" ==> t[0] == u[0];
    assert IsForm(value, left, hashes, mid, words, gaps, right);
  }

  // ---- a list of labels ----

  /** lower stands for `toLowerCase`. */
  type Lower = string -> string

  predicate Fits(entry: string) {
    entry != "" && |entry| <= MAX_LABEL_LENGTH
  }

  /** The labels that are neither empty nor too long, each normalised. */
  function Candidates(values: seq<string>): seq<string> {
    if values == [] then []
    else
      var entry := Normalize(values[|values| - 1]);
      Candidates(values[..|values| - 1]) + (if Fits(entry) then [entry] else [])
  }

  predicate HasKey(lower: Lower, labels: seq<string>, key: string) {
    exists i :: 0 <= i < |labels| && lower(labels[i]) == key
  }

  /** Of labels equal but for case only the first stays. */
  function Firsts(lower: Lower, labels: seq<string>): seq<string> {
    if labels == [] then []
    else
      var init, last := labels[..|labels| - 1], labels[|labels| - 1];
      Firsts(lower, init) + (if HasKey(lower, init, lower(last)) then [] else [last])
  }

  function Take(labels: seq<string>, n: nat): seq<string> {
    if |labels| <= n then labels else labels[..n]
  }

  /** The first six case-insensitively different labels that fit. */
  function Labels(lower: Lower, values: seq<string>): seq<string> {
    Take(Firsts(lower, Candidates(values)), MAX_LABELS)
  }

  lemma {:induction false} FirstsKeys(lower: Lower, labels: seq<string>, key: string)
    ensures HasKey(lower, Firsts(lower, labels), key) <==> HasKey(lower, labels, key)
  {
    if labels != [] {
      var init, last := labels[..|labels| - 1], labels[|labels| - 1];
      FirstsKeys(lower, init, key);
      assert labels == init + [last];
      KeySnoc(lower, init, last, key);
      if HasKey(lower, init, lower(last)) {
        assert Firsts(lower, labels) == Firsts(lower, init) + [] == Firsts(lower, init);
        assert lower(last) == key ==> HasKey(lower, init, key);
      } else {
        assert Firsts(lower, labels) == Firsts(lower, init) + [last];
        KeySnoc(lower, Firsts(lower, init), last, key);
      }
    }
  }

  lemma KeySnoc(lower: Lower, labels: seq<string>, entry: string, key: string)
    ensures HasKey(lower, labels + [entry], key) <==> HasKey(lower, labels, key) || lower(entry) == key
  {
    if HasKey(lower, labels, key) {
      var i :| 0 <= i < |labels| && lower(labels[i]) == key;
      assert (labels + [entry])[i] == labels[i];
    }
    assert (labels + [entry])[|labels|] == entry;
  }

  /** Later values only add behind. */
  lemma {:induction false} FirstsGrow(lower: Lower, a: seq<string>, b: seq<string>)
    ensures Firsts(lower, a) <= Firsts(lower, a + b)
    decreases |b|
  {
    if b == [] {
      assert a + b == a;
    } else {
      assert (a + b)[..|a + b| - 1] == a + b[..|b| - 1];
      FirstsGrow(lower, a, b[..|b| - 1]);
    }
  }

  lemma {:induction false} CandidatesAppend(a: seq<string>, b: seq<string>)
    ensures Candidates(a + b) == Candidates(a) + Candidates(b)
    decreases |b|
  {
    if b == [] {
      assert a + b == a;
    } else {
      assert (a + b)[..|a + b| - 1] == a + b[..|b| - 1];
      CandidatesAppend(a, b[..|b| - 1]);
    }
  }

  lemma FullIsFinal(lower: Lower, values: seq<string>, i: nat)
    requires i <= |values| && |Firsts(lower, Candidates(values[..i]))| == MAX_LABELS
    ensures Labels(lower, values) == Firsts(lower, Candidates(values[..i]))
  {
    assert values == values[..i] + values[i..];
    CandidatesAppend(values[..i], values[i..]);
    FirstsGrow(lower, Candidates(values[..i]), Candidates(values[i..]));
  }

  lemma NextValue(lower: Lower, values: seq<string>, i: nat)
    requires i < |values|
    ensures var entry := Normalize(values[i]);
      var labels := Firsts(lower, Candidates(values[..i]));
      Firsts(lower, Candidates(values[..i + 1]))
      == if Fits(entry) && !HasKey(lower, labels, lower(entry)) then labels + [entry] else labels
  {
    assert values[..i + 1][..i] == values[..i];
    var entry := Normalize(values[i]);
    var before := Candidates(values[..i]);
    FirstsKeys(lower, before, lower(entry));
    assert (before + [entry])[..|before|] == before;
    assert Candidates(values[..i + 1]) == if Fits(entry) then before + [entry] else before;
  }

  /** `normalizeConversationLabels`: one pass that stops at six labels. */
  method NormalizeConversationLabels(lower: Lower, values: seq<string>) returns (labels: seq<string>)
    ensures labels == Labels(lower, values)
  {
    labels := [];
    var seen: set<string> := {};
    var i := 0;
    while i < |values|
      invariant 0 <= i <= |values| && |labels| < MAX_LABELS
      invariant labels == Firsts(lower, Candidates(values[..i]))
      invariant forall key :: key in seen <==> HasKey(lower, labels, key)
    {
      NextValue(lower, values, i);
      var entry := Normalize(values[i]);
      var key := lower(entry);
      i := i + 1;
      if entry == "" || |entry| > MAX_LABEL_LENGTH || key in seen {
        continue;
      }
      forall k
        ensures HasKey(lower, labels + [entry], k) <==> k in seen + {key}
      {
        KeySnoc(lower, labels, entry, k);
      }
      seen := seen + {key};
      labels := labels + [entry];
      if |labels| >= MAX_LABELS {
        FullIsFinal(lower, values, i);
        return;
      }
    }
    assert values[..i] == values;
  }

  // ---- normalising a result again ----

  ghost predicate Normal(labels: seq<string>) {
    forall i :: 0 <= i < |labels| ==> Fits(labels[i]) && exists v :: labels[i] == Normalize(v)
  }

  ghost predicate DistinctKeys(lower: Lower, labels: seq<string>) {
    forall i, j :: 0 <= i < j < |labels| ==> lower(labels[i]) != lower(labels[j])
  }

  lemma CandidatesSnoc(init: seq<string>, last: string)
    ensures Candidates(init + [last]) == Candidates(init) + if Fits(Normalize(last)) then [Normalize(last)] else []
  {
    assert (init + [last])[..|init|] == init;
  }

  lemma {:induction false} CandidatesNormal(values: seq<string>)
    ensures Normal(Candidates(values))
    ensures |Candidates(values)| <= |values|
  {
    if values != [] {
      CandidatesNormal(values[..|values| - 1]);
    }
  }

  lemma {:induction false} FirstsShape(lower: Lower, labels: seq<string>)
    ensures DistinctKeys(lower, Firsts(lower, labels))
    ensures forall i :: 0 <= i < |Firsts(lower, labels)| ==> Firsts(lower, labels)[i] in labels
    ensures |Firsts(lower, labels)| <= |labels|
  {
    if labels != [] {
      var init, last := labels[..|labels| - 1], labels[|labels| - 1];
      FirstsShape(lower, init);
      var f := Firsts(lower, init);
      FirstsKeys(lower, init, lower(last));
      assert labels == init + [last];
      if !HasKey(lower, init, lower(last)) {
        assert forall i :: 0 <= i < |f| ==> lower(f[i]) != lower(last);
      }
    }
  }

  lemma LabelsShape(lower: Lower, values: seq<string>)
    ensures Normal(Labels(lower, values)) && DistinctKeys(lower, Labels(lower, values))
    ensures |Labels(lower, values)| <= MAX_LABELS
  {
    CandidatesNormal(values);
    FirstsShape(lower, Candidates(values));
    var c, f := Candidates(values), Firsts(lower, Candidates(values));
    forall i | 0 <= i < |f|
      ensures Fits(f[i]) && exists v :: f[i] == Normalize(v)
    {
      var k :| 0 <= k < |c| && c[k] == f[i];
    }
  }

  lemma DistinctInit(lower: Lower, init: seq<string>, last: string)
    requires DistinctKeys(lower, init + [last])
    ensures DistinctKeys(lower, init) && !HasKey(lower, init, lower(last))
  {
    var labels := init + [last];
    assert labels[|init|] == last;
    assert forall i :: 0 <= i < |init| ==> init[i] == labels[i];
  }

  lemma {:induction false} FirstsOfDistinct(lower: Lower, labels: seq<string>)
    requires DistinctKeys(lower, labels)
    ensures Firsts(lower, labels) == labels
    decreases |labels|
  {
    if labels != [] {
      var init, last := SplitLast(labels);
      DistinctInit(lower, init, last);
      FirstsOfDistinct(lower, init);
      FirstsSnoc(lower, init, last);
    }
  }

  lemma FirstsSnoc(lower: Lower, init: seq<string>, last: string)
    ensures Firsts(lower, init + [last]) == Firsts(lower, init) + if HasKey(lower, init, lower(last)) then [] else [last]
  {
    assert (init + [last])[..|init|] == init;
  }

  /** As many labels out as went in: nothing was dropped. */
  lemma {:induction false} FirstsOfFull(lower: Lower, labels: seq<string>)
    requires |Firsts(lower, labels)| == |labels|
    ensures Firsts(lower, labels) == labels
    decreases |labels|
  {
    if labels != [] {
      var init, last := SplitLast(labels);
      FirstsSnoc(lower, init, last);
      FirstsShape(lower, init);
      FirstsOfFull(lower, init);
    }
  }

  lemma {:induction false} CandidatesOfFull(values: seq<string>)
    requires |Candidates(values)| == |values|
    ensures forall i :: 0 <= i < |values| ==> Candidates(values)[i] == Normalize(values[i])
    decreases |values|
  {
    if values != [] {
      var init, last := SplitLast(values);
      CandidatesSnoc(init, last);
      CandidatesNormal(init);
      CandidatesOfFull(init);
    }
  }

  ghost predicate Fixed(values: seq<string>) {
    forall i :: 0 <= i < |values| ==> Normalize(values[i]) == values[i] && Fits(values[i])
  }

  lemma FixedInit(init: seq<string>, last: string)
    requires Fixed(init + [last])
    ensures Fixed(init) && Normalize(last) == last && Fits(last)
  {
    assert (init + [last])[|init|] == last;
    assert forall i :: 0 <= i < |init| ==> (init + [last])[i] == init[i];
  }

  lemma {:induction false} CandidatesOfFixed(values: seq<string>)
    requires Fixed(values)
    ensures Candidates(values) == values
    decreases |values|
  {
    if values != [] {
      var init, last := SplitLast(values);
      FixedInit(init, last);
      CandidatesOfFixed(init);
      CandidatesSnoc(init, last);
    }
  }

  // ---- which labels are kept ----

  /** The i-th label is not empty and not too long after normalising. */
  predicate IsUsable(values: seq<string>, i: nat)
    requires i < |values|
  {
    0 < |Normalize(values[i])| <= 24
  }

  /** It is usable, and no usable label before it is the same but for case. */
  ghost predicate IsFirst(lower: Lower, values: seq<string>, i: nat) {
    && i < |values| && IsUsable(values, i)
    && forall j :: 0 <= j < i && IsUsable(values, j) ==> lower(Normalize(values[j])) != lower(Normalize(values[i]))
  }

  /** picks are the places of these labels, from left to right; labels are the normalised labels there. */
  ghost predicate ArePicked(lower: Lower, values: seq<string>, picks: seq<nat>, labels: seq<string>) {
    && (forall i :: i in picks <==> IsFirst(lower, values, i))
    && (forall i, j :: 0 <= i < j < |picks| ==> picks[i] < picks[j])
    && |labels| == |picks|
    && forall k :: 0 <= k < |picks| ==> picks[k] < |values| && labels[k] == Normalize(values[picks[k]])
  }

  lemma {:induction false} CandidatesKeys(lower: Lower, values: seq<string>, key: string)
    ensures HasKey(lower, Candidates(values), key)
       <==> exists j :: 0 <= j < |values| && IsUsable(values, j) && lower(Normalize(values[j])) == key
    decreases |values|
  {
    if values != [] {
      var init, last := SplitLast(values);
      CandidatesKeys(lower, init, key);
      CandidatesSnoc(init, last);
      if Fits(Normalize(last)) {
        KeySnoc(lower, Candidates(init), Normalize(last), key);
      } else {
        assert Candidates(init) + [] == Candidates(init);
      }
      assert forall j :: 0 <= j < |init| ==> (IsUsable(values, j) <==> IsUsable(init, j));
    }
  }

  lemma LastIsFirst(lower: Lower, init: seq<string>, last: string)
    ensures IsFirst(lower, init + [last], |init|)
       <==> Fits(Normalize(last)) && !HasKey(lower, Candidates(init), lower(Normalize(last)))
  {
    var values := init + [last];
    CandidatesKeys(lower, init, lower(Normalize(last)));
    assert values[|init|] == last;
    assert forall j :: 0 <= j < |init| ==> values[j] == init[j] && (IsUsable(values, j) <==> IsUsable(init, j));
  }

  lemma FirstStays(lower: Lower, init: seq<string>, last: string, i: nat)
    requires i < |init|
    ensures IsFirst(lower, init + [last], i) <==> IsFirst(lower, init, i)
  {
    var values := init + [last];
    assert forall j :: 0 <= j < |init| ==> values[j] == init[j] && (IsUsable(values, j) <==> IsUsable(init, j));
  }

  lemma PickNext(lower: Lower, init: seq<string>, last: string, picks: seq<nat>, labels: seq<string>)
    requires ArePicked(lower, init, picks, labels)
    ensures if IsFirst(lower, init + [last], |init|)
      then ArePicked(lower, init + [last], picks + [|init|], labels + [Normalize(last)])
      else ArePicked(lower, init + [last], picks, labels)
  {
    var values := init + [last];
    forall i: nat
      ensures i < |init| ==> (IsFirst(lower, values, i) <==> IsFirst(lower, init, i))
    {
      if i < |init| {
        FirstStays(lower, init, last, i);
      }
    }
    assert forall i :: 0 <= i < |init| ==> values[i] == init[i];
    assert values[|init|] == last;
    forall k | 0 <= k < |picks|
      ensures picks[k] < |init|
    {
      assert picks[k] in picks;
    }
  }

  lemma {:induction false} FirstsArePicked(lower: Lower, values: seq<string>) returns (picks: seq<nat>)
    ensures ArePicked(lower, values, picks, Firsts(lower, Candidates(values)))
    decreases |values|
  {
    if values == [] {
      picks := [];
    } else {
      var init, last := SplitLast(values);
      picks := FirstsArePicked(lower, init);
      var labels := Firsts(lower, Candidates(init));
      CandidatesSnoc(init, last);
      LastIsFirst(lower, init, last);
      PickNext(lower, init, last, picks, labels);
      if Fits(Normalize(last)) {
        FirstsSnoc(lower, Candidates(init), Normalize(last));
      }
      assert Candidates(init) + [] == Candidates(init) && labels + [] == labels;
      if IsFirst(lower, values, |init|) {
        picks := picks + [|init|];
      }
    }
  }

  /** The result: of all usable labels that are the first of their kind, the first six in their order. */
  lemma LabelsAreFirsts(lower: Lower, values: seq<string>) returns (picks: seq<nat>)
    ensures forall i :: i in picks <==> IsFirst(lower, values, i)
    ensures forall i, j :: 0 <= i < j < |picks| ==> picks[i] < picks[j]
    ensures |Labels(lower, values)| == if |picks| <= 6 then |picks| else 6
    ensures forall k :: 0 <= k < |Labels(lower, values)| ==>
              picks[k] < |values| && Labels(lower, values)[k] == Normalize(values[picks[k]])
  {
    picks := FirstsArePicked(lower, values);
  }

  ghost predicate NoHash(labels: seq<string>) {
    forall i :: 0 <= i < |labels| ==> labels[i] != "" && labels[i][0] != '#'
  }

  /** Normalising a result again is the identity exactly when none of its labels starts with `#`. */
  lemma LabelsTwice(lower: Lower, values: seq<string>)
    ensures var labels := Labels(lower, values);
      Labels(lower, labels) == labels <==> NoHash(labels)
  {
    var labels := Labels(lower, values);
    LabelsShape(lower, values);
    forall i | 0 <= i < |labels|
      ensures Normalize(labels[i]) == labels[i] <==> labels[i][0] != '#'
    {
      var v :| labels[i] == Normalize(v);
      NormalizeTwice(v);
    }
    if NoHash(labels) {
      CandidatesOfFixed(labels);
      FirstsOfDistinct(lower, labels);
    } else {
      FullMeansFixed(lower, labels);
    }
  }

  lemma FullMeansFixed(lower: Lower, labels: seq<string>)
    ensures Labels(lower, labels) == labels ==> forall i :: 0 <= i < |labels| ==> Normalize(labels[i]) == labels[i]
  {
    var c := Candidates(labels);
    CandidatesNormal(labels);
    FirstsShape(lower, c);
    if Labels(lower, labels) == labels {
      FirstsOfFull(lower, c);
      CandidatesOfFull(labels);
    }
  }

  lemma OneLabel(lower: Lower, value: string)
    requires Fits(Normalize(value))
    ensures Labels(lower, [value]) == [Normalize(value)]
  {
    CandidatesSnoc([], value);
    FirstsSnoc(lower, [], Normalize(value));
    assert [] + [value] == [value] && [] + [Normalize(value)] == [Normalize(value)];
  }

  /** One `#` and the blank behind it go, the next `#` stays. */
  lemma TwoHashes()
    ensures Normalize("# #a") == "#a"
  {
    TrimFixed("# #a");
    assert "# #a"[1..] == " #a";
    assert " #a"[1..] == "#a";
    TrimFixed("#a");
    assert TrimStart(" #a") == TrimStart("#a") == "#a";
    SingleCollapses("#a");
  }

  lemma OneHash()
    ensures Normalize("#a") == "a"
  {
    TrimFixed("#a");
    assert "#a"[1..] == "a";
    TrimFixed("a");
    SingleCollapses("a");
  }

  /** It is not the identity in general. */
  lemma HashSurvivesOnce(lower: Lower)
    ensures Labels(lower, ["# #a"]) == ["#a"] && Labels(lower, ["#a"]) == ["a"]
  {
    TwoHashes();
    OneHash();
    OneLabel(lower, "# #a");
    OneLabel(lower, "#a");
  }
}
