/**
 The character separator object (code/boost.context/boost/token_functions.hpp:415-555).

 The input is a string and a position in it, for the iterator pair; ispunct and isspace are those of the C locale.
 */
module Tokenizers {
  import opened TokenStreams

  predicate IsPunct(c: char) {
    '!' <= c <= '/' || ':' <= c <= '@' || '[' <= c <= '`' || '{' <= c <= '~'
  }

  predicate IsSpace(c: char) {
    c == ' ' || '\t' <= c <= '\r'
  }

  class CharSeparator {
    const keptDelims: string
    const droppedDelims: string
    const useIsPunct: bool
    const useIsSpace: bool
    const keepEmpty: bool
    var outputDone: bool

    /** The delimiters are the characters of the two strings. */
    constructor (dropped: string, kept: string, keepEmptyTokens: bool)
      ensures keepEmpty == keepEmptyTokens && !outputDone
      ensures Delimiters() == Rules(set c | c in kept, set c | c in dropped)
    {
      droppedDelims, keptDelims, keepEmpty := dropped, kept, keepEmptyTokens;
      useIsPunct, useIsSpace, outputDone := false, false, false;
    }

    /** Punctuation kept, white space dropped, by the character codes of the C locale; empty tokens dropped.
        m_output_done is left as it comes. */
    constructor Default(garbage: bool)
      ensures !keepEmpty && outputDone == garbage
      ensures forall c: char :: c in Delimiters().kept <==>
                33 <= c as int <= 47 || 58 <= c as int <= 64 || 91 <= c as int <= 96 || 123 <= c as int <= 126
      ensures forall c: char :: c in Delimiters().dropped <==> c as int == 32 || 9 <= c as int <= 13
    {
      droppedDelims, keptDelims, keepEmpty := "", "", false;
      useIsPunct, useIsSpace, outputDone := true, true, garbage;
    }

    predicate IsKept(c: char) {
      if keptDelims != "" then c in keptDelims else useIsPunct && IsPunct(c)
    }

    predicate IsDropped(c: char) {
      if droppedDelims != "" then c in droppedDelims else useIsSpace && IsSpace(c)
    }

    ghost function Delimiters(): Rules {
      Rules(set c: char | IsKept(c), set c: char | IsDropped(c))
    }

    method Reset()
      ensures outputDone == old(outputDone)
    {
    }

    /** The characters from `next` on up to a delimiter. */
    method ReadField(s: string, next: nat) returns (next': nat)
      requires next <= |s|
      ensures next' == next + UpTo(Delimiters(), s[next..], 0)
    {
      ghost var rest := s[next..];
      next' := next;
      while next' != |s| && !IsDropped(s[next']) && !IsKept(s[next'])
        invariant next <= next' <= |s|
        invariant forall i | 0 <= i < next' - next :: !Delimits(Delimiters(), rest[i])
      {
        assert rest[next' - next] == s[next'];
        next' := next' + 1;
      }
      assert next' < |s| ==> rest[next' - next] == s[next'];
      UpToIs(Delimiters(), rest, 0, next' - next);
    }

    method SkipDropped(s: string, next: nat) returns (next': nat)
      requires next <= |s|
      ensures next' == next + Skip(Delimiters(), s[next..], 0)
    {
      ghost var rest := s[next..];
      next' := next;
      while next' != |s| && IsDropped(s[next'])
        invariant next <= next' <= |s|
        invariant Skip(Delimiters(), rest, 0) == Skip(Delimiters(), rest, next' - next)
      {
        assert rest[next' - next] == s[next'];
        next' := next' + 1;
      }
      assert next' < |s| ==> rest[next' - next] == s[next'];
    }

    /** One call: the next token of s from `next` on. */
    method Next(s: string, next: nat) returns (ok: bool, token: string, next': nat)
      requires next <= |s|
      modifies this
      ensures next <= next' <= |s|
      ensures CallStep(keepEmpty, Delimiters(), s[next..], old(outputDone)) == Step(ok, token, next' - next, outputDone)
      ensures ok ==> next < next' || (outputDone && !old(outputDone))
    {
      if keepEmpty {
        ok, token, next' := NextKeeping(s, next);
      } else {
        ok, token, next' := NextDropping(s, next);
      }
    }

    method NextDropping(s: string, next: nat) returns (ok: bool, token: string, next': nat)
      requires next <= |s|
      ensures next <= next' <= |s|
      ensures DropStep(Delimiters(), s[next..], outputDone) == Step(ok, token, next' - next, outputDone)
    {
      ghost var rest := s[next..];
      next' := SkipDropped(s, next);
      var start := next';
      if start == |s| {
        return false, "", next';
      }
      assert rest[start - next] == s[start];
      if IsKept(s[start]) {
        next' := next' + 1;
        assert s[start..next'] == [s[start]];
      } else {
        next' := ReadFieldWithin(s, next, start);
      }
      ok, token := true, s[start..next'];
    }

    /** The same field, seen from an earlier position. */
    method ReadFieldWithin(s: string, ghost from: nat, next: nat) returns (next': nat)
      requires from <= next <= |s|
      ensures next <= next' == from + UpTo(Delimiters(), s[from..], next - from)
      ensures s[next..next'] == s[from..][next - from..next' - from]
    {
      next' := ReadField(s, next);
      assert s[next..] == s[from..][next - from..];
      ShiftUpTo(Delimiters(), s[from..], next - from);
    }

    method NextKeeping(s: string, next: nat) returns (ok: bool, token: string, next': nat)
      requires next <= |s|
      modifies this
      ensures next <= next' <= |s|
      ensures KeepStep(Delimiters(), s[next..], old(outputDone)) == Step(ok, token, next' - next, outputDone)
    {
      ghost var rest := s[next..];
      next' := next;
      if next == |s| {
        ok, token := !outputDone, "";
        outputDone := true;
        return;
      }
      assert rest[0] == s[next];
      var start := next;
      if IsKept(s[next]) {
        if !outputDone {
          outputDone := true;
        } else {
          next' := next + 1;
          outputDone := false;
        }
      } else if !outputDone && IsDropped(s[next]) {
        outputDone := true;
      } else {
        if IsDropped(s[next]) {
          start := next + 1;
        }
        next' := ReadFieldWithin(s, next, start);
        outputDone := true;
      }
      ok, token := true, s[start..next'];
      assert token == rest[start - next..next' - next];
    }

    /** All the tokens of an input, as a caller's loop collects them. */
    method All(s: string) returns (tokens: seq<string>)
      modifies this
      ensures tokens == Tokens(keepEmpty, Delimiters(), s, old(outputDone))
      ensures outputDone == DoneAfter(keepEmpty, Delimiters(), s, old(outputDone))
    {
      ghost var r, start := Delimiters(), outputDone;
      tokens := [];
      var next, ok := 0, true;
      AtStart(keepEmpty, r, s, start);
      while ok
        invariant next <= |s|
        invariant Remains(keepEmpty, r, s, start, tokens, next, outputDone, ok)
        decreases ok, |s| - next, !outputDone
      {
        ghost var before := outputDone;
        var token, next';
        ok, token, next' := Next(s, next);
        NextRemains(keepEmpty, r, s, start, tokens, next, before, Step(ok, token, next' - next, outputDone));
        tokens := if ok then tokens + [token] else tokens;
        next := next';
      }
      AtEnd(keepEmpty, r, s, start, tokens, next, outputDone);
    }
  }

  lemma AtStart(keepEmpty: bool, r: Rules, s: string, start: bool)
    ensures Remains(keepEmpty, r, s, start, [], 0, start, true)
  {
    assert s[0..] == s;
  }

  lemma AtEnd(keepEmpty: bool, r: Rules, s: string, start: bool, tokens: seq<string>, next: nat, done: bool)
    requires next <= |s| && Remains(keepEmpty, r, s, start, tokens, next, done, false)
    ensures tokens == Tokens(keepEmpty, r, s, start) && done == DoneAfter(keepEmpty, r, s, start)
  {
  }

  /** A separator for these delimiters, run over an input, from the constructor's arguments to the tokens. */
  method Tokenize(dropped: string, kept: string, keepEmptyTokens: bool, s: string) returns (tokens: seq<string>)
    ensures var r := Rules(set c | c in kept, set c | c in dropped);
      && (keepEmptyTokens ==> tokens == Interleave(r, Fields(r, s), TokenStreams.Delimiters(r, s)))
      && (!keepEmptyTokens ==>
            var d := DroppedFirst(r); tokens == NonEmpty(Interleave(d, Fields(d, s), TokenStreams.Delimiters(d, s))))
  {
    ghost var r := Rules(set c | c in kept, set c | c in dropped);
    var separator := new CharSeparator(dropped, kept, keepEmptyTokens);
    tokens := separator.All(s);
    KeepStreamIsSplit(r, s);
    DropStreamIsSplit(r, s, false);
    SplitTokensAre(DroppedFirst(r), s);
  }

  /** The same with the default constructor. */
  method TokenizeDefault(garbage: bool, s: string) returns (tokens: seq<string>)
    ensures exists r: Rules ::
      && (forall c: char :: c in r.dropped <==> c as int == 32 || 9 <= c as int <= 13)
      && (forall c: char :: c in r.kept <==>
            33 <= c as int <= 47 || 58 <= c as int <= 64 || 91 <= c as int <= 96 || 123 <= c as int <= 126)
      && tokens == NonEmpty(Interleave(r, Fields(r, s), TokenStreams.Delimiters(r, s)))
  {
    var separator := new CharSeparator.Default(garbage);
    ghost var r := separator.Delimiters();
    tokens := separator.All(s);
    assert r.kept !! r.dropped;
    DropStreamIs(r, s, garbage);
    SplitTokensAre(r, s);
  }

  /** The tokens of the whole input are those read so far and those of the rest. */
  ghost predicate Remains(
    keepEmpty: bool, r: Rules, s: string, start: bool, tokens: seq<string>, next: nat, done: bool, more: bool)
    requires next <= |s|
  {
    if more then
      && Tokens(keepEmpty, r, s, start) == tokens + Tokens(keepEmpty, r, s[next..], done)
      && DoneAfter(keepEmpty, r, s, start) == DoneAfter(keepEmpty, r, s[next..], done)
    else
      && Tokens(keepEmpty, r, s, start) == tokens
      && DoneAfter(keepEmpty, r, s, start) == done
  }

  lemma NextRemains(
    keepEmpty: bool, r: Rules, s: string, start: bool, tokens: seq<string>, next: nat, done: bool, step: Step)
    requires next <= |s| && step == CallStep(keepEmpty, r, s[next..], done)
    requires Remains(keepEmpty, r, s, start, tokens, next, done, true)
    ensures var tokens' := if step.ok then tokens + [step.token] else tokens;
      Remains(keepEmpty, r, s, start, tokens', next + step.used, step.done, step.ok)
  {
    assert s[next..][step.used..] == s[next + step.used..];
    TokensStep(keepEmpty, r, s[next..], done);
    if step.ok {
      Regroup(tokens, step.token, Tokens(keepEmpty, r, s[next + step.used..], step.done));
    }
  }

  lemma Regroup(tokens: seq<string>, token: string, rest: seq<string>)
    ensures tokens + ([token] + rest) == tokens + [token] + rest
  {
  }

  lemma TokensStep(keepEmpty: bool, r: Rules, s: string, done: bool)
    ensures var step := CallStep(keepEmpty, r, s, done);
      if step.ok then
        && Tokens(keepEmpty, r, s, done) == [step.token] + Tokens(keepEmpty, r, s[step.used..], step.done)
        && DoneAfter(keepEmpty, r, s, done) == DoneAfter(keepEmpty, r, s[step.used..], step.done)
      else
        Tokens(keepEmpty, r, s, done) == [] && DoneAfter(keepEmpty, r, s, done) == step.done
  {
  }

  /** A field found in the rest of a string is found at the same place in the string. */
  lemma ShiftUpTo(r: Rules, s: string, n: nat)
    requires n <= |s|
    ensures n + UpTo(r, s[n..], 0) == UpTo(r, s, n)
  {
    var e := UpTo(r, s, n);
    UpToIs(r, s[n..], 0, e - n);
  }
}
