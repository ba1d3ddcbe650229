/** The log formatter object: its parsing and rendering loops (src/log/log_format.cc:195-323). */
module LogFormat {
  import opened LogPatterns

  lemma PrependBoth(a: seq<Item>, b: seq<Item>, rest: Option<seq<Item>>)
    ensures Prepend(a, Prepend(b, rest)) == Prepend(a + b, rest)
  {
    if rest.Some? {
      assert a + (b + rest.value) == a + b + rest.value;
    }
  }

  /** One item further: what is still to parse moves behind what has been parsed. */
  lemma OneMore(p: string, items: seq<Item>, i: nat, item: Item, n: nat)
    requires i < |p| && Parse(p) == Prepend(items, Parse(p[i..])) && FirstItem(p[i..]) == Got(item, n)
    ensures i + n <= |p| && Parse(p) == Prepend(items + [item], Parse(p[i + n..]))
  {
    assert p[i..][n..] == p[i + n..];
    PrependBoth(items, [item], Parse(p[i + n..]));
  }

  lemma Stuck(p: string, items: seq<Item>, i: nat)
    requires i < |p| && Parse(p) == Prepend(items, Parse(p[i..])) && FirstItem(p[i..]).Bad?
    ensures Parse(p) == None
  {
  }

  lemma FindFrom(p: string, i: nat, c: char, from: nat, k: nat)
    requires i + from <= k <= |p| && (forall j | i + from <= j < k :: p[j] != c) && (k < |p| ==> p[k] == c)
    ensures Find(p[i..], c, from) == k - i
  {
    FindIs(p[i..], c, from, k - i);
  }

  /** The position of c from `from` on, or the end. */
  method ScanTo(p: string, from: nat, c: char) returns (j: nat)
    requires from <= |p|
    ensures from <= j <= |p| && (forall k | from <= k < j :: p[k] != c) && (j < |p| ==> p[j] == c)
  {
    j := from;
    while j < |p| && p[j] != c
      invariant from <= j <= |p| && forall k | from <= k < j :: p[k] != c
    {
      j := j + 1;
    }
  }

  /** One turn of the parsing loop: the item at i and where the next one starts. */
  method ReadItem(p: string, i: nat) returns (item: Option<Item>, next: nat)
    requires i < |p|
    ensures match FirstItem(p[i..])
      case Bad => item == None
      case Got(it, n) => item == Some(it) && next == i + n
  {
    ghost var rest := p[i..];
    if p[i] == '%' {
      if i + 1 == |p| {
        return None, i;
      }
      var j := i + 2;
      assert rest[1] == p[i + 1];
      if p[i + 1] == 'D' {
        if j < |p| && p[j] == '{' {
          assert rest[2] == '{';
          j := ScanTo(p, j, '}');
          FindFrom(p, i, '}', 2, j);
          if j >= |p| {
            return None, i;
          }
          assert rest[3..j - i] == p[i + 3..j];
          return Some(Time(p[i + 3..j])), j + 1;
        }
        assert |rest| > 2 ==> rest[2] == p[i + 2];
        return Some(TimeDefault), j;
      }
      item := Plain(p[i + 1]);
      return item, j;
    }
    var j := ScanTo(p, i + 1, '%');
    FindFrom(p, i, '%', 1, j);
    assert rest[..j - i] == p[i..j];
    return Some(Literal(p[i..j])), j;
  }

  class LogFormatter {
    var pattern: string
    var error: bool
    var items: seq<Item>

    constructor ()
      ensures pattern == "" && !error && items == []
    {
      pattern, error, items := "", false, [];
    }

    /** On success the items are the pattern's; a failed parse leaves the old items in place. */
    method ParserFormatter(p: string)
      modifies this`items, this`error
      ensures error <==> ParsePattern(p).None?
      ensures items == if ParsePattern(p).None? then old(items) else ParsePattern(p).value
    {
      if p == "" {
        error := true;
        return;
      }
      var parsed: seq<Item> := [];
      var i := 0;
      assert p[0..] == p;
      assert Parse(p).Some? ==> parsed + Parse(p).value == Parse(p).value;
      while i < |p|
        invariant i <= |p| && items == old(items)
        invariant Parse(p) == Prepend(parsed, Parse(p[i..]))
      {
        var item, next := ReadItem(p, i);
        if item == None {
          Stuck(p, parsed, i);
          error := true;
          return;
        }
        OneMore(p, parsed, i, item.value, next - i);
        parsed := parsed + [item.value];
        i := next;
      }
      items := parsed;
      error := false;
    }

    /** A pattern that does not parse ends the program; one that does is remembered as given. */
    method SetPattern(p: string) returns (exits: bool)
      modifies this
      ensures exits == error == ParsePattern(p).None?
      ensures exits ==> pattern == old(pattern) && items == old(items)
      ensures !exits ==> pattern == p == Print(items) && items == ParsePattern(p).value
    {
      ParserFormatter(p);
      exits := error;
      if !exits {
        PrintOfParse(p);
        pattern := p;
      }
    }

    method Format(ss: string, e: Event, env: Environment) returns (out: string)
      ensures out == ss + Render(items, e, env)
    {
      out := ss;
      for i := 0 to |items|
        invariant out == ss + Render(items[..i], e, env)
      {
        assert items[..i + 1] == items[..i] + [items[i]];
        RenderOfBoth(items[..i], [items[i]], e, env);
        OneItem(items[i], e, env);
        out := out + RenderItem(items[i], e, env);
      }
      assert items[..|items|] == items;
    }
  }

  /** A formatter made for a pattern, and an event formatted with it.  An empty pattern sets nothing and shows nothing;
      one that does not parse ends the program. */
  method FormatEvent(p: string, e: Event, env: Environment) returns (exits: bool, out: string)
    ensures exits <==> p != "" && ParsePattern(p).None?
    ensures !exits && p != "" ==> Renders(p, e, env, out)
    ensures p == "" ==> out == ""
  {
    var formatter := new LogFormatter();
    exits, out := false, "";
    if p != "" {
      exits := formatter.SetPattern(p);
    }
    if !exits {
      out := formatter.Format("", e, env);
    }
  }
}
