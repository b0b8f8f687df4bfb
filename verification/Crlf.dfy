/**
 The two one-bit CRLF transducers of the terminal layer (src/kern/io.c:385-417),
 run over whole streams, and the algebra they satisfy.
 */
module Crlf {

  const CR: char := '\r'
  const LF: char := '\n'

  /** One rule set: (one bit of state, next character) to (characters emitted, new state). */
  type Rules = (bool, char) -> (string, bool)

  /** The five input rules, src/kern/io.c:400-407. */
  function InRules(cr: bool, ch: char): (string, bool) {
    if ch == CR then ([LF], true)
    else if cr && ch == LF then ([], false)
    else ([ch], false)
  }

  /** The six output rules, src/kern/io.c:409-417. */
  function OutRules(cr: bool, ch: char): (string, bool) {
    if ch == CR then ([CR, LF], true)
    else if ch != LF then ([ch], false)
    else if cr then ([], false)
    else ([CR, LF], false)
  }

  /** The state a rule set is in after a whole stream. */
  function State(rules: Rules, cr: bool, s: string): bool {
    if s == [] then cr
    else rules(State(rules, cr, s[..|s| - 1]), s[|s| - 1]).1
  }

  /** Everything a rule set emits over a whole stream. */
  function Emit(rules: Rules, cr: bool, s: string): string {
    if s == [] then []
    else Emit(rules, cr, s[..|s| - 1]) + rules(State(rules, cr, s[..|s| - 1]), s[|s| - 1]).0
  }

  function In(s: string): string { Emit(InRules, false, s) }

  function Out(s: string): string { Emit(OutRules, false, s) }

  lemma Snoc(rules: Rules, cr: bool, s: string, ch: char)
    ensures Emit(rules, cr, s + [ch]) == Emit(rules, cr, s) + rules(State(rules, cr, s), ch).0
    ensures State(rules, cr, s + [ch]) == rules(State(rules, cr, s), ch).1
  {
    assert (s + [ch])[..|s + [ch]| - 1] == s;
  }

  lemma {:induction false} Concat(rules: Rules, cr: bool, s: string, t: string)
    ensures Emit(rules, cr, s + t) == Emit(rules, cr, s) + Emit(rules, State(rules, cr, s), t)
    ensures State(rules, cr, s + t) == State(rules, State(rules, cr, s), t)
    decreases |t|
  {
    if t == [] {
      assert s + t == s;
    } else {
      var t', ch := t[..|t| - 1], t[|t| - 1];
      assert s + t == (s + t') + [ch];
      Concat(rules, cr, s, t');
      Snoc(rules, cr, s + t', ch);
    }
  }

  lemma Single(rules: Rules, cr: bool, ch: char)
    ensures Emit(rules, cr, [ch]) == rules(cr, ch).0 && State(rules, cr, [ch]) == rules(cr, ch).1
  {
    assert [ch] == [] + [ch];
    Snoc(rules, cr, [], ch);
  }

  function Flatten(chunks: seq<string>): string {
    if chunks == [] then [] else chunks[0] + Flatten(chunks[1..])
  }

  /** What a sequence of calls emits when each call continues in the state the previous one left. */
  function EmitChunks(rules: Rules, cr: bool, chunks: seq<string>): string
    decreases |chunks|
  {
    if chunks == [] then []
    else Emit(rules, cr, chunks[0]) + EmitChunks(rules, State(rules, cr, chunks[0]), chunks[1..])
  }

  /** And the state the last of them leaves. */
  function StateChunks(rules: Rules, cr: bool, chunks: seq<string>): bool
    decreases |chunks|
  {
    if chunks == [] then cr else StateChunks(rules, State(rules, cr, chunks[0]), chunks[1..])
  }

  /** The split of a stream into calls cannot be observed. */
  lemma {:induction false} ChunkingInvisible(rules: Rules, cr: bool, chunks: seq<string>)
    ensures EmitChunks(rules, cr, chunks) == Emit(rules, cr, Flatten(chunks))
    ensures StateChunks(rules, cr, chunks) == State(rules, cr, Flatten(chunks))
    decreases |chunks|
  {
    if chunks != [] {
      ChunkingInvisible(rules, State(rules, cr, chunks[0]), chunks[1..]);
      Concat(rules, cr, chunks[0], Flatten(chunks[1..]));
    }
  }

  lemma {:induction false} FlattenSnoc(chunks: seq<string>, chunk: string)
    ensures Flatten(chunks + [chunk]) == Flatten(chunks) + chunk
    decreases |chunks|
  {
    if chunks == [] {
      assert [chunk][1..] == [] && chunks + [chunk] == [chunk];
    } else {
      assert (chunks + [chunk])[1..] == chunks[1..] + [chunk];
      FlattenSnoc(chunks[1..], chunk);
    }
  }

  lemma {:induction false} FlattenConcat(a: seq<string>, b: seq<string>)
    ensures Flatten(a + b) == Flatten(a) + Flatten(b)
    decreases |a|
  {
    if a == [] {
      assert a + b == b;
    } else {
      assert (a + b)[1..] == a[1..] + b;
      FlattenConcat(a[1..], b);
    }
  }

  ghost predicate NoCr(s: string) {
    forall i :: 0 <= i < |s| ==> s[i] != CR
  }

  /** Every CR is directly followed by LF, and every LF directly preceded by CR. */
  ghost predicate Paired(s: string) {
    && (forall i :: 0 <= i < |s| && s[i] == CR ==> i + 1 < |s| && s[i + 1] == LF)
    && (forall i :: 0 <= i < |s| && s[i] == LF ==> 0 < i && s[i - 1] == CR)
  }

  lemma ReadPair()
    ensures Emit(InRules, false, [CR, LF]) == [LF] && !State(InRules, false, [CR, LF])
  {
    assert [CR, LF] == [CR] + [LF];
    Snoc(InRules, false, [CR], LF);
    Single(InRules, false, CR);
  }

  /** Both transducers keep the same bit; reading back what was written leaves it clear. */
  lemma {:induction false} InAfterOutRun(s: string)
    ensures State(OutRules, false, s) == State(InRules, false, s)
    ensures In(Out(s)) == In(s) && !State(InRules, false, Out(s))
  {
    if s != [] {
      var s', ch := s[..|s| - 1], s[|s| - 1];
      InAfterOutRun(s');
      Concat(InRules, false, Out(s'), OutRules(State(OutRules, false, s'), ch).0);
      ReadPair();
      Single(InRules, false, ch);
    }
  }

  lemma InAfterOut(s: string)
    ensures In(Out(s)) == In(s)
  {
    InAfterOutRun(s);
  }

  lemma {:induction false} OutAfterInRun(s: string)
    ensures NoCr(In(s))
    ensures Out(In(s)) == Out(s) && !State(OutRules, false, In(s))
  {
    if s == [] {
      Nothing(OutRules);
    } else {
      var s', ch := s[..|s| - 1], s[|s| - 1];
      assert s == s' + [ch];
      OutAfterInRun(s');
      hide Emit, State;
      InAfterOutRun(s');
      Snoc(InRules, false, s', ch);
      Snoc(OutRules, false, s', ch);
      var cr := State(InRules, false, s');
      RulesAgree(cr, ch);
      hide InRules, OutRules;
      Concat(OutRules, false, In(s'), InRules(cr, ch).0);
    }
  }

  /** Writing what one character reads as is writing the character. */
  lemma RulesAgree(cr: bool, ch: char)
    ensures Emit(OutRules, false, InRules(cr, ch).0) == OutRules(cr, ch).0
    ensures !State(OutRules, false, InRules(cr, ch).0) && NoCr(InRules(cr, ch).0)
  {
    Nothing(OutRules);
    Single(OutRules, false, LF);
    Single(OutRules, false, ch);
    hide Emit, State;
  }

  lemma Nothing(rules: Rules)
    ensures forall cr :: Emit(rules, cr, []) == [] && State(rules, cr, []) == cr
  {
  }

  lemma OutAfterIn(s: string)
    ensures Out(In(s)) == Out(s)
  {
    OutAfterInRun(s);
  }

  lemma InHasNoCr(s: string)
    ensures NoCr(In(s))
  {
    OutAfterInRun(s);
  }

  lemma Idempotent(s: string)
    ensures In(In(s)) == In(s) && Out(Out(s)) == Out(s)
  {
    calc { In(In(s)); { InAfterOut(In(s)); } In(Out(In(s))); { OutAfterIn(s); } In(Out(s)); { InAfterOut(s); } In(s); }
    calc { Out(Out(s)); { OutAfterIn(Out(s)); } Out(In(Out(s))); { InAfterOut(s); } Out(In(s)); { OutAfterIn(s); } Out(s); }
  }

  lemma {:induction false} OutIsPaired(s: string)
    ensures Paired(Out(s))
  {
    if s != [] {
      OutIsPaired(s[..|s| - 1]);
    }
  }

  /** The two normal forms identify exactly the same streams. */
  lemma SameKernel(s: string, t: string)
    ensures In(s) == In(t) <==> Out(s) == Out(t)
  {
    OutAfterIn(s); OutAfterIn(t);
    InAfterOut(s); InAfterOut(t);
  }

  // ---------------------------------------------------------------- line by line

  ghost predicate Plain(s: string) { CR !in s && LF !in s }

  /** A line end is CR, LF or CR LF; a lone CR is one only if no LF follows. */
  predicate LineEnd(e: string, rest: string) {
    e == [LF] || e == [CR, LF] || (e == [CR] && !(rest != [] && rest[0] == LF))
  }

  /** Neither map touches text without line ends. */
  lemma {:induction false} PlainUnchanged(rules: Rules, cr: bool, s: string)
    requires (rules == InRules || rules == OutRules) && Plain(s)
    ensures Emit(rules, cr, s) == s && State(rules, cr, s) == (cr && s == [])
  {
    if s != [] {
      var t, ch := s[..|s| - 1], s[|s| - 1];
      assert s == t + [ch];
      PlainUnchanged(rules, cr, t);
    }
  }

  /** What the bit remembers matters only to an LF that comes next. */
  lemma {:induction false} BitMatters(rules: Rules, rest: string)
    requires (rules == InRules || rules == OutRules) && !(rest != [] && rest[0] == LF)
    ensures Emit(rules, true, rest) == Emit(rules, false, rest)
  {
    if rest != [] {
      assert rest == [rest[0]] + rest[1..];
      Concat(rules, true, [rest[0]], rest[1..]);
      Concat(rules, false, [rest[0]], rest[1..]);
      Single(rules, true, rest[0]);
      Single(rules, false, rest[0]);
    }
  }

  /** A line end alone: the input map makes it LF, the output map CR LF. */
  lemma EndOfLine(e: string)
    requires e == [LF] || e == [CR, LF] || e == [CR]
    ensures Emit(InRules, false, e) == [LF] && State(InRules, false, e) == (e == [CR])
    ensures Emit(OutRules, false, e) == [CR, LF] && State(OutRules, false, e) == (e == [CR])
  {
    Single(InRules, false, e[0]);
    Single(OutRules, false, e[0]);
    if e == [CR, LF] {
      assert e == [CR] + [LF];
      Snoc(InRules, false, [CR], LF);
      Snoc(OutRules, false, [CR], LF);
    }
  }

  /**
   What the two maps are, line by line: the text of a line is unchanged, and its end, whichever of
   the three it is, becomes LF on input and CR LF on output.
   */
  lemma LineByLine(line: string, e: string, rest: string)
    requires Plain(line) && LineEnd(e, rest)
    ensures In(line + e + rest) == line + [LF] + In(rest)
    ensures Out(line + e + rest) == line + [CR, LF] + Out(rest)
  {
    EndOfLine(e);
    OneLine(InRules, line, e, rest, [LF]);
    OneLine(OutRules, line, e, rest, [CR, LF]);
  }

  lemma OneLine(rules: Rules, line: string, e: string, rest: string, end: string)
    requires (rules == InRules || rules == OutRules) && Plain(line) && LineEnd(e, rest)
    requires Emit(rules, false, e) == end && State(rules, false, e) == (e == [CR])
    ensures Emit(rules, false, line + e + rest) == line + end + Emit(rules, false, rest)
  {
    hide Emit, State, Plain;
    PlainUnchanged(rules, false, line);
    Concat(rules, false, line, e);
    Concat(rules, false, line + e, rest);
    if e == [CR] { BitMatters(rules, rest); }
  }
}
