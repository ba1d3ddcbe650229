/**
 What a character separator's tokens are (code/boost.context/boost/token_functions.hpp:385-555): one call as a
 function, the stream of calls, and splitting as an independent definition of both.
 */
module TokenStreams {

  /** Which characters are delimiters shown as tokens, and which are delimiters left out; a character may be both. */
  datatype Rules = Rules(kept: set<char>, dropped: set<char>)

  predicate Delimits(r: Rules, c: char) {
    c in r.kept || c in r.dropped
  }

  /** The first delimiter from `from` on, or the end. */
  function UpTo(r: Rules, s: string, from: nat): (e: nat)
    requires from <= |s|
    ensures from <= e <= |s|
    ensures forall i | from <= i < e :: !Delimits(r, s[i])
    ensures e < |s| ==> Delimits(r, s[e])
    decreases |s| - from
  {
    if from == |s| || Delimits(r, s[from]) then from else UpTo(r, s, from + 1)
  }

  /** The first character from `from` on that is not dropped, or the end. */
  function Skip(r: Rules, s: string, from: nat): (n: nat)
    requires from <= |s|
    ensures from <= n <= |s|
    ensures forall i | from <= i < n :: s[i] in r.dropped
    ensures n < |s| ==> s[n] !in r.dropped
    decreases |s| - from
  {
    if from == |s| || s[from] !in r.dropped then from else Skip(r, s, from + 1)
  }

  // ---------------------------------------------------------------- one call

  /** What a call returns: whether there is a token, the token, how much input it used, and the new m_output_done. */
  datatype Step = Step(ok: bool, token: string, used: nat, done: bool)

  function DropStep(r: Rules, s: string, done: bool): (step: Step)
    ensures step.used <= |s| && (step.ok ==> step.used > 0)
  {
    var n := Skip(r, s, 0);
    if n == |s| then Step(false, "", n, done)
    else if s[n] in r.kept then Step(true, [s[n]], n + 1, done)
    else Step(true, s[n..UpTo(r, s, n)], UpTo(r, s, n), done)
  }

  function KeepStep(r: Rules, s: string, done: bool): (step: Step)
    ensures step.used <= |s| && (step.ok ==> step.used > 0 || (step.done && !done))
  {
    if s == "" then Step(!done, "", 0, true)
    else if s[0] in r.kept then (if !done then Step(true, "", 0, true) else Step(true, [s[0]], 1, false))
    else if !done && s[0] in r.dropped then Step(true, "", 0, true)
    else
      var from := if s[0] in r.dropped then 1 else 0;
      var e := UpTo(r, s, from);
      Step(true, s[from..e], e, true)
  }

  function CallStep(keepEmpty: bool, r: Rules, s: string, done: bool): (step: Step)
    ensures step.used <= |s| && (step.ok ==> step.used > 0 || (step.done && !done))
  {
    if keepEmpty then KeepStep(r, s, done) else DropStep(r, s, done)
  }

  /** The tokens of repeated calls until one finds none. */
  function Tokens(keepEmpty: bool, r: Rules, s: string, done: bool): seq<string>
    decreases |s|, !done
  {
    var step := CallStep(keepEmpty, r, s, done);
    if !step.ok then [] else [step.token] + Tokens(keepEmpty, r, s[step.used..], step.done)
  }

  /** m_output_done once they have all been read. */
  function DoneAfter(keepEmpty: bool, r: Rules, s: string, done: bool): bool
    decreases |s|, !done
  {
    var step := CallStep(keepEmpty, r, s, done);
    if !step.ok then step.done else DoneAfter(keepEmpty, r, s[step.used..], step.done)
  }

  // ---------------------------------------------------------------- splitting

  /** The maximal delimiter-free stretches between delimiters, empty ones included. */
  function Fields(r: Rules, s: string): (fields: seq<string>)
    ensures |fields| == |Delimiters(r, s)| + 1
    decreases |s|
  {
    var e := UpTo(r, s, 0);
    if e == |s| then [s] else [s[..e]] + Fields(r, s[e + 1..])
  }

  function Delimiters(r: Rules, s: string): string
    decreases |s|
  {
    var e := UpTo(r, s, 0);
    if e == |s| then "" else [s[e]] + Delimiters(r, s[e + 1..])
  }

  function Weave(fields: seq<string>, delimiters: string): string
    requires |fields| == |delimiters| + 1
    decreases |delimiters|
  {
    if delimiters == "" then fields[0] else fields[0] + [delimiters[0]] + Weave(fields[1..], delimiters[1..])
  }

  predicate DelimiterFree(r: Rules, field: string) {
    forall k | 0 <= k < |field| :: !Delimits(r, field[k])
  }

  ghost predicate IsSplit(r: Rules, s: string, fields: seq<string>, delimiters: string) {
    && |fields| == |delimiters| + 1
    && Weave(fields, delimiters) == s
    && (forall i | 0 <= i < |fields| :: DelimiterFree(r, fields[i]))
    && (forall i | 0 <= i < |delimiters| :: Delimits(r, delimiters[i]))
  }

  lemma WeaveCons(f: string, fields: seq<string>, d: char, delimiters: string)
    requires |fields| == |delimiters| + 1
    ensures Weave([f] + fields, [d] + delimiters) == f + [d] + Weave(fields, delimiters)
  {
    assert ([f] + fields)[1..] == fields && ([d] + delimiters)[1..] == delimiters;
  }

  lemma {:induction false} SplitIsSplit(r: Rules, s: string)
    ensures IsSplit(r, s, Fields(r, s), Delimiters(r, s))
    decreases |s|
  {
    var e := UpTo(r, s, 0);
    if e < |s| {
      var rest := s[e + 1..];
      SplitIsSplit(r, rest);
      SplitCons(r, s[..e], s[e], rest, Fields(r, rest), Delimiters(r, rest));
      SplitAt(r, s);
      Rejoined(s, e);
    } else {
      WholeIsSplit(r, s);
    }
  }

  lemma Rejoined(s: string, e: nat)
    requires e < |s|
    ensures s == s[..e] + [s[e]] + s[e + 1..]
  {
  }

  lemma WholeIsSplit(r: Rules, s: string)
    requires UpTo(r, s, 0) == |s|
    ensures IsSplit(r, s, Fields(r, s), Delimiters(r, s))
  {
    assert Fields(r, s) == [s] && Delimiters(r, s) == "";
  }

  /** A delimiter-free stretch and a delimiter in front of a split make a split. */
  lemma SplitCons(r: Rules, f: string, d: char, rest: string, fields: seq<string>, delimiters: string)
    requires IsSplit(r, rest, fields, delimiters) && Delimits(r, d) && DelimiterFree(r, f)
    ensures IsSplit(r, f + [d] + rest, [f] + fields, [d] + delimiters)
  {
    WeaveCons(f, fields, d, delimiters);
    forall i | 0 <= i < |[f] + fields| ensures DelimiterFree(r, ([f] + fields)[i]) {
      assert ([f] + fields)[i] == if i == 0 then f else fields[i - 1];
    }
    forall i | 0 <= i < |[d] + delimiters| ensures Delimits(r, ([d] + delimiters)[i]) {
      assert ([d] + delimiters)[i] == if i == 0 then d else delimiters[i - 1];
    }
  }

  lemma TailIsSplit(r: Rules, s: string, fields: seq<string>, delimiters: string)
    requires IsSplit(r, s, fields, delimiters) && delimiters != ""
    ensures IsSplit(r, Weave(fields[1..], delimiters[1..]), fields[1..], delimiters[1..])
    ensures s == fields[0] + [delimiters[0]] + Weave(fields[1..], delimiters[1..])
    ensures DelimiterFree(r, fields[0]) && Delimits(r, delimiters[0])
  {
  }

  /** There is one way to split: k delimiters and k + 1 delimiter-free fields that make up the input. */
  lemma {:induction false} SplitIsUnique(r: Rules, s: string, fields: seq<string>, delimiters: string)
    requires IsSplit(r, s, fields, delimiters)
    ensures fields == Fields(r, s) && delimiters == Delimiters(r, s)
    decreases |delimiters|, 0
  {
    if delimiters == "" {
      OneField(r, s, fields);
    } else {
      TailIsSplit(r, s, fields, delimiters);
      UniqueCons(r, s, fields, delimiters);
    }
  }

  lemma OneField(r: Rules, s: string, fields: seq<string>)
    requires IsSplit(r, s, fields, "")
    ensures fields == Fields(r, s) && Delimiters(r, s) == ""
  {
    assert DelimiterFree(r, fields[0]);
    UpToIs(r, s, 0, |s|);
  }

  lemma {:induction false} UniqueCons(r: Rules, s: string, fields: seq<string>, delimiters: string)
    requires |fields| == |delimiters| + 1 && delimiters != ""
    requires IsSplit(r, Weave(fields[1..], delimiters[1..]), fields[1..], delimiters[1..])
    requires s == fields[0] + [delimiters[0]] + Weave(fields[1..], delimiters[1..])
    requires DelimiterFree(r, fields[0]) && Delimits(r, delimiters[0])
    ensures fields == Fields(r, s) && delimiters == Delimiters(r, s)
    decreases |delimiters| - 1, 1
  {
    var rest := Weave(fields[1..], delimiters[1..]);
    SplitIsUnique(r, rest, fields[1..], delimiters[1..]);
    FirstOfWoven(r, fields[0], delimiters[0], rest, s);
    assert fields == [fields[0]] + fields[1..] && delimiters == [delimiters[0]] + delimiters[1..];
  }

  lemma FirstOfWoven(r: Rules, f: string, d: char, rest: string, s: string)
    requires s == f + [d] + rest && Delimits(r, d) && DelimiterFree(r, f)
    ensures Fields(r, s) == [f] + Fields(r, rest) && Delimiters(r, s) == [d] + Delimiters(r, rest)
  {
    var e := |f|;
    assert s[..e] == f && s[e] == d && s[e + 1..] == rest;
    UpToIs(r, s, 0, e);
  }

  lemma UpToIs(r: Rules, s: string, from: nat, e: nat)
    requires from <= e <= |s| && (forall i | from <= i < e :: !Delimits(r, s[i])) && (e < |s| ==> Delimits(r, s[e]))
    ensures UpTo(r, s, from) == e
  {
  }

  function Mark(r: Rules, c: char): seq<string> {
    if c in r.kept then [[c]] else []
  }

  /** Fields in order, each kept delimiter a token between its neighbours. */
  function Interleave(r: Rules, fields: seq<string>, delimiters: string): seq<string>
    requires |fields| == |delimiters| + 1
    decreases |delimiters|
  {
    if delimiters == "" then [fields[0]]
    else [fields[0]] + (Mark(r, delimiters[0]) + Interleave(r, fields[1..], delimiters[1..]))
  }

  /** The same, read off the input: the first field and what comes after it. */
  function SplitTokens(r: Rules, s: string): seq<string>
    decreases |s|, 1
  {
    var e := UpTo(r, s, 0);
    [s[..e]] + AfterField(r, s[e..])
  }

  /** What follows a field. */
  function AfterField(r: Rules, s: string): seq<string>
    requires s != "" ==> Delimits(r, s[0])
    decreases |s|, 0
  {
    if s == "" then [] else Mark(r, s[0]) + SplitTokens(r, s[1..])
  }

  lemma InterleaveCons(r: Rules, f: string, fields: seq<string>, d: char, delimiters: string)
    requires |fields| == |delimiters| + 1
    ensures Interleave(r, [f] + fields, [d] + delimiters) == [f] + (Mark(r, d) + Interleave(r, fields, delimiters))
  {
    assert ([f] + fields)[1..] == fields && ([d] + delimiters)[1..] == delimiters;
  }

  lemma AfterAt(r: Rules, s: string, e: nat)
    requires e < |s| && Delimits(r, s[e])
    ensures AfterField(r, s[e..]) == Mark(r, s[e]) + SplitTokens(r, s[e + 1..])
  {
    assert s[e..][1..] == s[e + 1..];
  }

  lemma SplitAt(r: Rules, s: string)
    requires UpTo(r, s, 0) < |s|
    ensures var e := UpTo(r, s, 0);
      && Fields(r, s) == [s[..e]] + Fields(r, s[e + 1..]) && Delimiters(r, s) == [s[e]] + Delimiters(r, s[e + 1..])
  {
  }

  lemma {:induction false} SplitTokensAre(r: Rules, s: string)
    ensures SplitTokens(r, s) == Interleave(r, Fields(r, s), Delimiters(r, s))
    decreases |s|
  {
    var e := UpTo(r, s, 0);
    if e < |s| {
      var rest := s[e + 1..];
      SplitTokensAre(r, rest);
      AfterAt(r, s, e);
      SplitAt(r, s);
      InterleaveCons(r, s[..e], Fields(r, rest), s[e], Delimiters(r, rest));
    } else {
      assert s[..e] == s && s[e..] == "";
    }
  }

  /** All the characters of some tokens, in order. */
  function Spelled(tokens: seq<string>): string {
    if tokens == [] then "" else tokens[0] + Spelled(tokens[1..])
  }

  /** The input without the delimiters that are not kept. */
  function Without(r: Rules, s: string): string {
    if s == "" then ""
    else if s[0] in r.dropped && s[0] !in r.kept then Without(r, s[1..])
    else [s[0]] + Without(r, s[1..])
  }

  lemma {:induction false} WithoutFree(r: Rules, f: string, rest: string)
    requires DelimiterFree(r, f)
    ensures Without(r, f + rest) == f + Without(r, rest)
    decreases |f|
  {
    if f == "" {
      assert f + rest == rest;
    } else {
      assert (f + rest)[1..] == f[1..] + rest;
      assert !Delimits(r, f[0]);
      WithoutFree(r, f[1..], rest);
      assert f == [f[0]] + f[1..];
    }
  }

  lemma SpelledField(f: string, mark: seq<string>, rest: seq<string>)
    requires |mark| <= 1
    ensures Spelled([f] + (mark + rest)) == f + (if mark == [] then "" else mark[0]) + Spelled(rest)
  {
    assert ([f] + (mark + rest))[1..] == mark + rest;
    if mark == [] {
      assert mark + rest == rest;
    } else {
      assert (mark + rest)[1..] == rest;
    }
  }

  /** The tokens spell the input without the delimiters that are left out: nothing is added, lost or moved. */
  lemma {:induction false} TokensSpellInput(r: Rules, s: string)
    ensures Spelled(SplitTokens(r, s)) == Without(r, s)
    decreases |s|
  {
    var e := UpTo(r, s, 0);
    var f := s[..e];
    assert s == f + s[e..];
    WithoutFree(r, f, s[e..]);
    if e == |s| {
      LastFieldSpells(r, s);
    } else {
      TokensSpellInput(r, s[e + 1..]);
      FieldSpells(r, s, e);
      SplitAtMark(r, s, e);
    }
  }

  lemma LastFieldSpells(r: Rules, s: string)
    requires UpTo(r, s, 0) == |s|
    ensures Spelled(SplitTokens(r, s)) == s && Without(r, s[|s|..]) == ""
  {
    assert s[..|s|] == s && s[|s|..] == "";
    assert Spelled([s]) == s + Spelled([]);
  }

  lemma FieldSpells(r: Rules, s: string, e: nat)
    requires e == UpTo(r, s, 0) < |s|
    ensures Spelled(SplitTokens(r, s)) ==
              s[..e] + (if s[e] in r.kept then [s[e]] else "") + Spelled(SplitTokens(r, s[e + 1..]))
  {
    AfterAt(r, s, e);
    SpelledField(s[..e], Mark(r, s[e]), SplitTokens(r, s[e + 1..]));
  }

  lemma SplitAtMark(r: Rules, s: string, e: nat)
    requires e < |s| && Delimits(r, s[e])
    ensures Without(r, s[e..]) == (if s[e] in r.kept then [s[e]] else "") + Without(r, s[e + 1..])
  {
    assert s[e..][1..] == s[e + 1..];
  }

  function NonEmpty(tokens: seq<string>): seq<string> {
    if tokens == [] then []
    else if tokens[0] == "" then NonEmpty(tokens[1..])
    else [tokens[0]] + NonEmpty(tokens[1..])
  }

  // ---------------------------------------------------------------- keep_empty_tokens

  /** With m_output_done set, the stream is what follows an empty first field if the input is empty or starts with a
      delimiter, and the whole split otherwise; with it clear, always the whole split. */
  lemma {:induction false} KeepStreamIs(r: Rules, s: string, done: bool)
    ensures Tokens(true, r, s, done) ==
              if done && (s == "" || Delimits(r, s[0])) then AfterField(r, s) else SplitTokens(r, s)
    decreases |s|, !done
  {
    var step := KeepStep(r, s, done);
    if s == "" {
      if !done { KeepStreamIs(r, s, true); }
    } else if Delimits(r, s[0]) && !done {
      assert s[0..] == s && s[..0] == "";
      KeepStreamIs(r, s, true);
    } else if s[0] in r.kept {
      KeepStreamIs(r, s[1..], false);
    } else {
      KeepField(r, s, done);
      KeepStreamIs(r, s[step.used..], true);
    }
  }

  /** A call that reads a field takes it up to the next delimiter, past the dropped one it may start on. */
  lemma KeepField(r: Rules, s: string, done: bool)
    requires s != "" && s[0] !in r.kept && (s[0] in r.dropped ==> done)
    ensures var step := KeepStep(r, s, done);
      && step.ok && step.done && 0 < step.used
      && (step.used < |s| ==> Delimits(r, s[step.used]))
      && (if s[0] in r.dropped
          then SplitTokens(r, s[1..]) == [step.token] + AfterField(r, s[step.used..])
          else SplitTokens(r, s) == [step.token] + AfterField(r, s[step.used..]))
  {
    var e := KeepStep(r, s, done).used;
    if s[0] in r.dropped {
      var t := s[1..];
      UpToIs(r, t, 0, e - 1);
      assert t[..e - 1] == s[1..e] && t[e - 1..] == s[e..];
    } else {
      assert s[..e] == s[0..e];
    }
  }

  /** With keep_empty_tokens and a fresh separator the tokens are exactly the split. */
  lemma KeepStreamIsSplit(r: Rules, s: string)
    ensures Tokens(true, r, s, false) == Interleave(r, Fields(r, s), Delimiters(r, s))
    ensures IsSplit(r, s, Fields(r, s), Delimiters(r, s))
  {
    KeepStreamIs(r, s, false);
    SplitTokensAre(r, s);
    SplitIsSplit(r, s);
  }

  /** Reading an input to its end leaves m_output_done set, and reset does not clear it. */
  lemma {:induction false} KeepEndsDone(r: Rules, s: string, done: bool)
    ensures DoneAfter(true, r, s, done)
    decreases |s|, !done
  {
    var step := KeepStep(r, s, done);
    if step.ok {
      KeepEndsDone(r, s[step.used..], step.done);
    }
  }

  /** So a separator used again gives the split exactly when the input is not empty and does not start with a
      delimiter; otherwise the first, empty, field is missing. */
  lemma ReusedKeepIsSplitIff(r: Rules, s: string)
    ensures Tokens(true, r, s, true) == SplitTokens(r, s) <==> s != "" && !Delimits(r, s[0])
    ensures s == "" || Delimits(r, s[0]) ==> [""] + Tokens(true, r, s, true) == SplitTokens(r, s)
  {
    KeepStreamIs(r, s, true);
    if s == "" || Delimits(r, s[0]) {
      UpToIs(r, s, 0, 0);
      assert s[0..] == s && s[..0] == "";
      assert |SplitTokens(r, s)| == |Tokens(true, r, s, true)| + 1;
    }
  }

  // ---------------------------------------------------------------- drop_empty_tokens

  /** In drop mode a character that is both kept and dropped is dropped. */
  function DroppedFirst(r: Rules): Rules {
    Rules(r.kept - r.dropped, r.dropped)
  }

  lemma {:induction false} NonEmptyOfBoth(a: seq<string>, b: seq<string>)
    ensures NonEmpty(a + b) == NonEmpty(a) + NonEmpty(b)
    decreases |a|
  {
    if a == [] {
      assert a + b == b;
    } else {
      assert (a + b)[1..] == a[1..] + b;
      NonEmptyOfBoth(a[1..], b);
    }
  }

  /** The non-empty part of a split, one character or one field at a time. */
  lemma NonEmptySplit(r: Rules, s: string)
    requires s != ""
    ensures var e := UpTo(r, s, 0);
      NonEmpty(SplitTokens(r, s)) ==
        if e == 0 then Mark(r, s[0]) + NonEmpty(SplitTokens(r, s[1..]))
        else [s[..e]] + NonEmpty(AfterField(r, s[e..]))
  {
    var e := UpTo(r, s, 0);
    NonEmptyOfBoth([s[..e]], AfterField(r, s[e..]));
    if e == 0 {
      assert s[0..] == s;
      NonEmptyOfBoth(Mark(r, s[0]), SplitTokens(r, s[1..]));
      OneNonEmpty([s[0]]);
      OneNonEmpty("");
    } else {
      OneNonEmpty(s[..e]);
    }
  }

  lemma OneNonEmpty(t: string)
    ensures NonEmpty([t]) == if t == "" then [] else [t]
  {
  }

  /** The rest after a field, with empty tokens removed, is the rest's own split with empty tokens removed. */
  lemma AfterIsSplit(r: Rules, s: string)
    requires s != "" ==> Delimits(r, s[0])
    ensures NonEmpty(AfterField(r, s)) == NonEmpty(SplitTokens(r, s))
  {
    UpToIs(r, s, 0, 0);
    assert s[0..] == s && s[..0] == "";
    NonEmptyOfBoth([""], AfterField(r, s));
    OneNonEmpty("");
  }

  lemma {:induction false} SkipKeepsNonEmpty(r: Rules, s: string, n: nat)
    requires n <= |s| && forall i | 0 <= i < n :: s[i] in r.dropped && s[i] !in r.kept
    ensures NonEmpty(SplitTokens(r, s)) == NonEmpty(SplitTokens(r, s[n..]))
    decreases n
  {
    if n == 0 {
      assert s[0..] == s;
    } else {
      UpToIs(r, s, 0, 0);
      NonEmptySplit(r, s);
      SkipKeepsNonEmpty(r, s[1..], n - 1);
      assert s[1..][n - 1..] == s[n..];
    }
  }

  lemma SameStep(r: Rules, s: string, done: bool)
    ensures DropStep(r, s, done) == DropStep(DroppedFirst(r), s, done)
  {
    SameSkip(r, s, 0);
    var n := Skip(r, s, 0);
    SameUpTo(r, s, n);
  }

  lemma {:induction false} SameSkip(r: Rules, s: string, from: nat)
    requires from <= |s|
    ensures Skip(r, s, from) == Skip(DroppedFirst(r), s, from)
    decreases |s| - from
  {
    if from < |s| { SameSkip(r, s, from + 1); }
  }

  lemma SameUpTo(r: Rules, s: string, from: nat)
    requires from <= |s|
    ensures UpTo(r, s, from) == UpTo(DroppedFirst(r), s, from)
  {
    var e := UpTo(r, s, from);
    forall i | from <= i < e ensures !Delimits(DroppedFirst(r), s[i]) {
      assert !Delimits(r, s[i]);
    }
    UpToIs(DroppedFirst(r), s, from, e);
  }

  lemma NothingLeft(r: Rules)
    ensures NonEmpty(SplitTokens(r, "")) == []
  {
    OneNonEmpty("");
  }

  lemma SkippedAll(r: Rules, s: string)
    requires r.kept !! r.dropped && Skip(r, s, 0) == |s|
    ensures NonEmpty(SplitTokens(r, s)) == []
  {
    SkipKeepsNonEmpty(r, s, |s|);
    assert s[|s|..] == "";
    NothingLeft(r);
  }

  lemma SkippedSome(r: Rules, s: string, n: nat)
    requires r.kept !! r.dropped && n == Skip(r, s, 0) < |s|
    ensures NonEmpty(SplitTokens(r, s)) ==
              if s[n] in r.kept then [[s[n]]] + NonEmpty(SplitTokens(r, s[n + 1..]))
              else [s[n..UpTo(r, s, n)]] + NonEmpty(SplitTokens(r, s[UpTo(r, s, n)..]))
  {
    SkipKeepsNonEmpty(r, s, n);
    if s[n] in r.kept { TakeMark(r, s, n); } else { TakeField(r, s, n); }
  }

  /** One drop call takes one token off the split with empty fields removed. */
  lemma DropTakesOne(r: Rules, s: string, done: bool)
    requires r.kept !! r.dropped
    ensures var step := DropStep(r, s, done);
      NonEmpty(SplitTokens(r, s)) == if step.ok then [step.token] + NonEmpty(SplitTokens(r, s[step.used..])) else []
  {
    var n := Skip(r, s, 0);
    if n == |s| {
      SkippedAll(r, s);
    } else {
      SkippedSome(r, s, n);
    }
  }

  lemma TakeMark(r: Rules, s: string, n: nat)
    requires n < |s| && s[n] in r.kept
    ensures NonEmpty(SplitTokens(r, s[n..])) == [[s[n]]] + NonEmpty(SplitTokens(r, s[n + 1..]))
  {
    var t := s[n..];
    NonEmptySplit(r, t);
    UpToIs(r, t, 0, 0);
    assert t[1..] == s[n + 1..];
  }

  lemma FieldFirst(r: Rules, t: string)
    requires t != "" && !Delimits(r, t[0])
    ensures var e := UpTo(r, t, 0); NonEmpty(SplitTokens(r, t)) == [t[..e]] + NonEmpty(SplitTokens(r, t[e..]))
  {
    var e := UpTo(r, t, 0);
    NonEmptySplit(r, t);
    AfterIsSplit(r, t[e..]);
  }

  lemma SliceOfSlice(s: string, n: nat, e: nat)
    requires n <= e <= |s|
    ensures s[n..][..e - n] == s[n..e] && s[n..][e - n..] == s[e..]
  {
  }

  lemma TakeField(r: Rules, s: string, n: nat)
    requires n < |s| && !Delimits(r, s[n])
    ensures var e := UpTo(r, s, n);
      NonEmpty(SplitTokens(r, s[n..])) == [s[n..e]] + NonEmpty(SplitTokens(r, s[e..]))
  {
    var e := UpTo(r, s, n);
    FieldFirst(r, s[n..]);
    UpToIs(r, s[n..], 0, e - n);
    SliceOfSlice(s, n, e);
  }

  /** When no character is both, the drop stream is the split with empty fields removed. */
  lemma {:induction false} DropStreamIs(r: Rules, s: string, done: bool)
    requires r.kept !! r.dropped
    ensures Tokens(false, r, s, done) == NonEmpty(SplitTokens(r, s))
    decreases |s|
  {
    var step := DropStep(r, s, done);
    DropTakesOne(r, s, done);
    if step.ok {
      DropStreamIs(r, s[step.used..], step.done);
    }
  }

  lemma {:induction false} SameTokens(r: Rules, s: string, done: bool)
    ensures Tokens(false, r, s, done) == Tokens(false, DroppedFirst(r), s, done)
    decreases |s|
  {
    SameStep(r, s, done);
    var step := DropStep(r, s, done);
    if step.ok {
      SameTokens(r, s[step.used..], step.done);
    }
  }

  /** The drop stream for any delimiters: the split in which a character that is both counts as dropped. */
  lemma DropStreamIsSplit(r: Rules, s: string, done: bool)
    ensures Tokens(false, r, s, done) == NonEmpty(SplitTokens(DroppedFirst(r), s))
  {
    SameTokens(r, s, done);
    DropStreamIs(DroppedFirst(r), s, done);
  }

  function Both(r: Rules, s: string): nat {
    if s == "" then 0 else (if s[0] in r.kept && s[0] in r.dropped then 1 else 0) + Both(r, s[1..])
  }

  lemma {:induction false} BothOfStretch(r: Rules, s: string, e: nat)
    requires e <= |s| && forall i | 0 <= i < e :: !Delimits(r, s[i])
    ensures Both(r, s) == Both(r, s[e..])
    decreases e
  {
    if e == 0 {
      assert s[0..] == s;
    } else {
      assert !Delimits(r, s[0]);
      BothOfStretch(r, s[1..], e - 1);
      assert s[1..][e - 1..] == s[e..];
    }
  }

  /** Keeping a character that is both shows it once more each time it occurs; nothing else differs. */
  lemma {:induction false} BothAreExtra(r: Rules, s: string)
    ensures |NonEmpty(SplitTokens(r, s))| == |NonEmpty(SplitTokens(DroppedFirst(r), s))| + Both(r, s)
    ensures Both(r, s) == 0 ==> NonEmpty(SplitTokens(r, s)) == NonEmpty(SplitTokens(DroppedFirst(r), s))
    decreases |s|
  {
    var d, e := DroppedFirst(r), UpTo(r, s, 0);
    SameUpTo(r, s, 0);
    if s == "" {
    } else {
      NonEmptySplit(r, s);
      NonEmptySplit(d, s);
      if e == 0 {
        BothAreExtra(r, s[1..]);
      } else {
        BothOfStretch(r, s, e);
        if e < |s| { assert Delimits(d, s[e]); }
        AfterIsSplit(r, s[e..]);
        AfterIsSplit(d, s[e..]);
        BothAreExtra(r, s[e..]);
      }
    }
  }

  lemma {:induction false} BothIs(r: Rules, s: string)
    ensures Both(r, s) == 0 <==> forall i | 0 <= i < |s| :: !(s[i] in r.kept && s[i] in r.dropped)
    decreases |s|
  {
    if s != "" {
      BothIs(r, s[1..]);
      assert forall i | 0 < i < |s| :: s[i] == s[1..][i - 1];
      if forall i | 0 <= i < |s| :: !(s[i] in r.kept && s[i] in r.dropped) {
        forall i | 0 <= i < |s[1..]| ensures !(s[1..][i] in r.kept && s[1..][i] in r.dropped) {
          assert s[1..][i] == s[i + 1];
        }
      }
    }
  }

  /** The drop stream is the keep stream with empty fields removed exactly when no character of the input is both a
      kept and a dropped delimiter. */
  lemma DropIsKeepWithoutEmptiesIff(r: Rules, s: string)
    ensures Tokens(false, r, s, false) == NonEmpty(Tokens(true, r, s, false)) <==>
              forall i | 0 <= i < |s| :: !(s[i] in r.kept && s[i] in r.dropped)
  {
    DropStreamIsSplit(r, s, false);
    KeepStreamIs(r, s, false);
    BothAreExtra(r, s);
    BothIs(r, s);
  }
}
