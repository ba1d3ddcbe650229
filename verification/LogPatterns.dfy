/**
 The log pattern language: what a pattern means, and how it prints and renders (src/log/log_format.cc:18-187,
 214-323).

 localtime_r with strftime, and strerror, are parameters; so is errno, which the two error items read.
 */
module LogPatterns {

  datatype Option<T> = None | Some(value: T)

  /** One constructor per formatter item; `TimeDefault` is a `%D` without braces. */
  datatype Item =
    | Literal(text: string)
    | LogName
    | TimeDefault
    | Time(format: string)
    | Error
    | ErrorStr
    | FiberId
    | FileName
    | Line
    | Message
    | ThreadName
    | NewLine
    | Level
    | Tab
    | ThreadId

  /** The item of a one-letter directive other than `%D`. */
  function Plain(c: char): Option<Item> {
    match c
    case 'c' => Some(LogName)
    case 'e' => Some(Error)
    case 'E' => Some(ErrorStr)
    case 'F' => Some(FiberId)
    case 'f' => Some(FileName)
    case 'L' => Some(Line)
    case 'm' => Some(Message)
    case 'N' => Some(ThreadName)
    case 'n' => Some(NewLine)
    case 'P' => Some(Level)
    case 'T' => Some(Tab)
    case 't' => Some(ThreadId)
    case _ => None
  }

  // ---------------------------------------------------------------- parsing

  /** The first position from `from` on that holds c, or the end. */
  function Find(p: string, c: char, from: nat): (k: nat)
    requires from <= |p|
    ensures from <= k <= |p|
    ensures k < |p| ==> p[k] == c
    ensures forall i | from <= i < k :: p[i] != c
    decreases |p| - from
  {
    if from == |p| || p[from] == c then from else Find(p, c, from + 1)
  }

  datatype First = Bad | Got(item: Item, length: nat)

  /** The item at the front of a non-empty pattern, and how long it is. */
  function FirstItem(p: string): (f: First)
    requires p != ""
    ensures f.Got? ==> 0 < f.length <= |p|
  {
    if p[0] != '%' then
      var n := Find(p, '%', 1);
      Got(Literal(p[..n]), n)
    else if |p| < 2 then Bad
    else if p[1] == 'D' then
      if |p| > 2 && p[2] == '{' then
        var close := Find(p, '}', 2);
        if close == |p| then Bad else Got(Time(p[3..close]), close + 1)
      else Got(TimeDefault, 2)
    else
      match Plain(p[1])
      case None => Bad
      case Some(item) => Got(item, 2)
  }

  function Parse(p: string): Option<seq<Item>>
    decreases |p|
  {
    if p == "" then Some([])
    else
      match FirstItem(p)
      case Bad => None
      case Got(item, n) => Prepend([item], Parse(p[n..]))
  }

  function Prepend(items: seq<Item>, rest: Option<seq<Item>>): Option<seq<Item>> {
    if rest.None? then None else Some(items + rest.value)
  }

  /** A pattern must not be empty. */
  function ParsePattern(p: string): Option<seq<Item>> {
    if p == "" then None else Parse(p)
  }

  // ---------------------------------------------------------------- printing

  function Code(item: Item): char {
    match item
    case Literal(_) => '%'
    case LogName => 'c'
    case TimeDefault => 'D'
    case Time(_) => 'D'
    case Error => 'e'
    case ErrorStr => 'E'
    case FiberId => 'F'
    case FileName => 'f'
    case Line => 'L'
    case Message => 'm'
    case ThreadName => 'N'
    case NewLine => 'n'
    case Level => 'P'
    case Tab => 'T'
    case ThreadId => 't'
  }

  function Show(item: Item): string {
    match item
    case Literal(text) => text
    case Time(format) => "%D{" + format + "}"
    case _ => ['%', Code(item)]
  }

  function Print(items: seq<Item>): string {
    if items == [] then "" else Show(items[0]) + Print(items[1..])
  }

  /** Items as the parser makes them: literals are neither empty nor contain a `%`, and a time format ends at the
      first closing brace. */
  predicate WellMade(item: Item) {
    match item
    case Literal(text) => text != "" && '%' !in text
    case Time(format) => '}' !in format
    case _ => true
  }

  /** Two items that would read as something else if one were printed after the other. */
  predicate Clash(item: Item, next: Item) {
    || (item.Literal? && next.Literal?)
    || (item.TimeDefault? && next.Literal? && next.text != "" && next.text[0] == '{')
  }

  predicate Canonical(items: seq<Item>) {
    items == [] || (
      && WellMade(items[0])
      && (|items| > 1 ==> !Clash(items[0], items[1]))
      && Canonical(items[1..]))
  }

  /** What may follow an item's text without being read into it. */
  predicate Ends(item: Item, rest: string) {
    rest == "" || ((item.Literal? ==> rest[0] == '%') && (item.TimeDefault? ==> rest[0] != '{'))
  }

  lemma FirstItemShows(p: string)
    requires p != "" && FirstItem(p).Got?
    ensures var f := FirstItem(p); Show(f.item) == p[..f.length] && WellMade(f.item) && Ends(f.item, p[f.length..])
  {
    var f := FirstItem(p);
    if p[0] == '%' && p[1] != 'D' {
      PlainIsCode(p[1]);
      assert p[..2] == ['%', p[1]];
    } else if f.item.Time? {
      var close := Find(p, '}', 2);
      assert p[..close + 1] == "%D{" + p[3..close] + "}";
    } else if f.item.TimeDefault? {
      assert p[..2] == "%D";
    }
  }

  lemma PlainIsCode(c: char)
    ensures Plain(c).Some? ==> Show(Plain(c).value) == ['%', c] && WellMade(Plain(c).value)
    ensures Plain(c).Some? ==> !Plain(c).value.Literal? && !Plain(c).value.TimeDefault?
  {
  }

  lemma ItemShown(item: Item, rest: string)
    requires WellMade(item) && Ends(item, rest)
    ensures var p := Show(item) + rest; p != "" && FirstItem(p) == Got(item, |Show(item)|)
  {
    var p := Show(item) + rest;
    match item
    case Literal(text) =>
      FindIs(p, '%', 1, |text|);
      assert p[..|text|] == text;
    case Time(format) =>
      assert p[0] == '%' && p[1] == 'D' && p[2] == '{';
      assert forall i | 3 <= i < |format| + 3 :: p[i] == format[i - 3];
      FindIs(p, '}', 2, |format| + 3);
      assert p[3..|format| + 3] == format;
    case _ =>
      assert p[0] == '%' && p[1] == Code(item);
      if !item.TimeDefault? {
        CodeIsPlain(item);
      }
  }

  lemma CodeIsPlain(item: Item)
    requires !item.Literal? && !item.TimeDefault? && !item.Time?
    ensures Plain(Code(item)) == Some(item) && Code(item) != 'D'
  {
  }

  lemma FindIs(p: string, c: char, from: nat, k: nat)
    requires from <= k <= |p| && (forall i | from <= i < k :: p[i] != c) && (k < |p| ==> p[k] == c)
    ensures Find(p, c, from) == k
  {
  }

  /** A successful parse prints back to its input, and yields only canonical lists. */
  lemma {:induction false} PrintOfParse(p: string)
    requires Parse(p).Some?
    ensures Print(Parse(p).value) == p && Canonical(Parse(p).value)
    decreases |p|
  {
    if p != "" {
      var f := FirstItem(p);
      FirstItemShows(p);
      var rest := p[f.length..];
      PrintOfParse(rest);
      var items := Parse(p).value;
      var tail := Parse(rest).value;
      assert items == [f.item] + tail && items[1..] == tail;
      assert p == p[..f.length] + rest;
      if tail != [] {
        assert rest[0] == Show(tail[0])[0] by { ShowNotEmpty(tail[0]); }
      }
    }
  }

  lemma ShowNotEmpty(item: Item)
    requires WellMade(item)
    ensures Show(item) != "" && (Show(item)[0] == '%' <==> !item.Literal?)
  {
  }

  lemma PrintFront(items: seq<Item>)
    requires items != [] && WellMade(items[0])
    ensures Print(items) != "" && Print(items)[0] == Show(items[0])[0]
  {
    ShowNotEmpty(items[0]);
  }

  /** Every canonical list parses back to itself. */
  lemma {:induction false} ParseOfPrint(items: seq<Item>)
    requires Canonical(items)
    ensures Parse(Print(items)) == Some(items)
    decreases |items|
  {
    if items != [] {
      var rest := Print(items[1..]);
      if |items| > 1 {
        PrintFront(items[1..]);
        ShowNotEmpty(items[1]);
      }
      ItemShown(items[0], rest);
      assert Print(items)[|Show(items[0])|..] == rest;
      ParseOfPrint(items[1..]);
      assert [items[0]] + items[1..] == items;
    }
  }

  /** The accepted patterns are exactly the printed forms of canonical lists, one list each. */
  lemma AcceptedIffCanonicalPrint(p: string)
    ensures ParsePattern(p).Some? <==> exists items :: Canonical(items) && items != [] && Print(items) == p
    ensures forall items, items' | Canonical(items) && Canonical(items') && Print(items) == Print(items') ::
      items == items'
  {
    if ParsePattern(p).Some? {
      PrintOfParse(p);
      assert Print([]) == "";
      assert Canonical(Parse(p).value) && Parse(p).value != [] && Print(Parse(p).value) == p;
    }
    if items :| Canonical(items) && items != [] && Print(items) == p {
      ParseOfPrint(items);
      PrintFront(items);
    }
    forall items, items' | Canonical(items) && Canonical(items') && Print(items) == Print(items')
      ensures items == items'
    {
      ParseOfPrint(items);
      ParseOfPrint(items');
    }
  }

  // ---------------------------------------------------------------- rendering

  datatype Event = Event(
    logName: string, time: int, fileName: string, line: nat, threadId: nat, fiberId: nat, threadName: string,
    level: string, content: string)

  datatype Environment = Environment(errno: int, strerror: int -> string, strftime: (string, int) -> string)

  const DEFAULT_TIME_FORMAT := "%y:%m:%d %H-%M-%S"

  function Decimal(n: nat): string {
    if n < 10 then [Digit(n)] else Decimal(n / 10) + [Digit(n % 10)]
  }

  function Digit(n: nat): char
    requires n < 10
  {
    "0123456789"[n]
  }

  function Signed(n: int): string {
    if n < 0 then "-" + Decimal(-n) else Decimal(n)
  }

  function RenderItem(item: Item, e: Event, env: Environment): string {
    match item
    case Literal(text) => text
    case LogName => e.logName
    case TimeDefault => env.strftime(DEFAULT_TIME_FORMAT, e.time)
    case Time(format) => env.strftime(format, e.time)
    case Error => if env.errno != 0 then "errno=" + Signed(env.errno) else ""
    case ErrorStr => if env.errno != 0 then "strerr=" + env.strerror(env.errno) else ""
    case FiberId => Decimal(e.fiberId)
    case FileName => e.fileName
    case Line => Decimal(e.line)
    case Message => e.content
    case ThreadName => e.threadName
    case NewLine => "\n"
    case Level => e.level
    case Tab => "\t"
    case ThreadId => Decimal(e.threadId)
  }

  function Render(items: seq<Item>, e: Event, env: Environment): string {
    if items == [] then "" else RenderItem(items[0], e, env) + Render(items[1..], e, env)
  }

  // ---------------------------------------------------------------- what each directive shows

  /** The pattern parses, and on this event it renders as `out`. */
  predicate Renders(p: string, e: Event, env: Environment, out: string) {
    ParsePattern(p).Some? && Render(ParsePattern(p).value, e, env) == out
  }

  /** The value of a string of decimal digits, by their character codes. */
  function NumeralValue(s: string): int {
    if s == "" then 0 else 10 * NumeralValue(s[..|s| - 1]) + (s[|s| - 1] as int - 48)
  }

  /** s is n in decimal: digits only, no leading zero, and reading them back gives n. */
  predicate IsNumeral(s: string, n: int) {
    && s != "" && (forall i | 0 <= i < |s| :: 48 <= s[i] as int <= 57)
    && (s[0] == '0' ==> |s| == 1)
    && NumeralValue(s) == n
  }

  /** The same with a minus sign in front of a negative number. */
  predicate IsSignedNumeral(s: string, n: int) {
    if n < 0 then s != "" && s[0] == '-' && IsNumeral(s[1..], -n) else IsNumeral(s, n)
  }

  predicate RendersNumber(p: string, e: Event, env: Environment, n: int) {
    ParsePattern(p).Some? && IsNumeral(Render(ParsePattern(p).value, e, env), n)
  }

  lemma {:induction false} DecimalIsNumeral(n: nat)
    ensures IsNumeral(Decimal(n), n) && (n > 0 ==> Decimal(n)[0] != '0')
  {
    if n < 10 {
      OneDigit(n);
    } else {
      DecimalIsNumeral(n / 10);
      MoreDigits(Decimal(n / 10), n / 10, n % 10);
    }
  }

  lemma OneDigit(n: nat)
    requires n < 10
    ensures IsNumeral([Digit(n)], n) && (n > 0 ==> Digit(n) != '0')
  {
    assert [Digit(n)][..0] == "";
    assert NumeralValue("") == 0;
    DigitCode(n);
  }

  lemma DigitCode(n: nat)
    requires n < 10
    ensures Digit(n) as int == 48 + n
  {
  }

  lemma MoreDigits(front: string, q: nat, r: nat)
    requires IsNumeral(front, q) && q > 0 && front[0] != '0' && r < 10
    ensures var s := front + [Digit(r)]; IsNumeral(s, 10 * q + r) && s[0] != '0'
  {
    var s := front + [Digit(r)];
    assert s[..|s| - 1] == front;
    DigitCode(r);
  }

  lemma SignedIsNumeral(n: int)
    ensures IsSignedNumeral(Signed(n), n)
  {
    DecimalIsNumeral(if n < 0 then -n else n);
    assert n < 0 ==> Signed(n)[1..] == Decimal(-n);
  }

  lemma OneDirective(p: string, c: char, item: Item, e: Event, env: Environment)
    requires |p| == 2 && p[0] == '%' && p[1] == c && c != 'D' && Plain(c) == Some(item)
    ensures ParsePattern(p) == Some([item]) && Renders(p, e, env, RenderItem(item, e, env))
  {
    assert FirstItem(p) == Got(item, 2) && p[2..] == "" && Parse("") == Some([]);
    assert [item] + [] == [item];
    OneItem(item, e, env);
  }

  /** From the text of a directive to the event: the letter after the `%` says which field is shown. */
  lemma DirectivesRender(p: string, e: Event, env: Environment)
    requires |p| == 2 && p[0] == '%'
    ensures p[1] == 'c' ==> Renders(p, e, env, e.logName)
    ensures p[1] == 'f' ==> Renders(p, e, env, e.fileName)
    ensures p[1] == 'm' ==> Renders(p, e, env, e.content)
    ensures p[1] == 'N' ==> Renders(p, e, env, e.threadName)
    ensures p[1] == 'P' ==> Renders(p, e, env, e.level)
    ensures p[1] == 'T' ==> Renders(p, e, env, "\t")
    ensures p[1] == 'n' ==> Renders(p, e, env, "\n")
  {
    if p[1] != 'D' && Plain(p[1]).Some? {
      OneDirective(p, p[1], Plain(p[1]).value, e, env);
    }
  }

  lemma NumbersRender(p: string, e: Event, env: Environment)
    requires |p| == 2 && p[0] == '%'
    ensures p[1] == 'L' ==> RendersNumber(p, e, env, e.line)
    ensures p[1] == 't' ==> RendersNumber(p, e, env, e.threadId)
    ensures p[1] == 'F' ==> RendersNumber(p, e, env, e.fiberId)
  {
    if p[1] == 'L' || p[1] == 't' || p[1] == 'F' {
      OneDirective(p, p[1], Plain(p[1]).value, e, env);
      var n := if p[1] == 'L' then e.line else if p[1] == 't' then e.threadId else e.fiberId;
      DecimalIsNumeral(n);
      assert RenderItem(Plain(p[1]).value, e, env) == Decimal(n);
    }
  }

  /** Any other letter, and none, is no directive. */
  lemma OtherLettersAreErrors(p: string)
    requires p != "" && p[0] == '%' && (|p| == 1 || p[1] !in "cDeEFfLmNnPTt")
    ensures ParsePattern(p) == None
  {
    if |p| > 1 {
      assert "cDeEFfLmNnPTt"[0] == 'c' && "cDeEFfLmNnPTt"[1] == 'D' && "cDeEFfLmNnPTt"[2] == 'e'
        && "cDeEFfLmNnPTt"[3] == 'E' && "cDeEFfLmNnPTt"[4] == 'F' && "cDeEFfLmNnPTt"[5] == 'f'
        && "cDeEFfLmNnPTt"[6] == 'L' && "cDeEFfLmNnPTt"[7] == 'm' && "cDeEFfLmNnPTt"[8] == 'N'
        && "cDeEFfLmNnPTt"[9] == 'n' && "cDeEFfLmNnPTt"[10] == 'P' && "cDeEFfLmNnPTt"[11] == 'T'
        && "cDeEFfLmNnPTt"[12] == 't';
    }
  }

  /** The error items show nothing while errno is 0. */
  lemma ErrorsRender(p: string, e: Event, env: Environment)
    requires |p| == 2 && p[0] == '%'
    ensures (p[1] == 'e' || p[1] == 'E') && env.errno == 0 ==> Renders(p, e, env, "")
    ensures p[1] == 'E' && env.errno != 0 ==> Renders(p, e, env, "strerr=" + env.strerror(env.errno))
    ensures p[1] == 'e' && env.errno != 0 ==>
              exists numeral :: IsSignedNumeral(numeral, env.errno) && Renders(p, e, env, "errno=" + numeral)
  {
    if p[1] == 'e' || p[1] == 'E' {
      OneDirective(p, p[1], Plain(p[1]).value, e, env);
      SignedIsNumeral(env.errno);
    }
  }

  /** A time in its own format, or bare in the default one; and text that is no directive shows as itself. */
  lemma TimesAndTextRender(text: string, e: Event, env: Environment)
    ensures Renders("%D", e, env, env.strftime("%y:%m:%d %H-%M-%S", e.time))
    ensures '}' !in text ==> Renders("%D{" + text + "}", e, env, env.strftime(text, e.time))
    ensures text != "" && '%' !in text ==> Renders(text, e, env, text)
  {
    ItemRenders(TimeDefault, e, env);
    assert Show(TimeDefault) == "%D";
    if '}' !in text {
      ItemRenders(Time(text), e, env);
    }
    if text != "" && '%' !in text {
      ItemRenders(Literal(text), e, env);
    }
  }

  lemma ItemRenders(item: Item, e: Event, env: Environment)
    requires WellMade(item)
    ensures Renders(Show(item), e, env, RenderItem(item, e, env))
  {
    OneItem(item, e, env);
    ShowNotEmpty(item);
    ParseOfPrint([item]);
  }

  // ---------------------------------------------------------------- patterns put together

  function Last(items: seq<Item>): Item
    requires items != []
  {
    items[|items| - 1]
  }

  /** The items of two patterns put together: a literal at the seam is one literal. */
  function Merge(a: seq<Item>, b: seq<Item>): seq<Item> {
    if a != [] && b != [] && Last(a).Literal? && b[0].Literal? then
      a[..|a| - 1] + [Literal(Last(a).text + b[0].text)] + b[1..]
    else a + b
  }

  predicate EndsInBareTime(items: seq<Item>) {
    items != [] && Last(items).TimeDefault?
  }

  lemma {:induction false} RenderOfBoth(a: seq<Item>, b: seq<Item>, e: Event, env: Environment)
    ensures Render(a + b, e, env) == Render(a, e, env) + Render(b, e, env)
    decreases |a|
  {
    if a == [] {
      assert a + b == b;
    } else {
      assert (a + b)[1..] == a[1..] + b;
      RenderOfBoth(a[1..], b, e, env);
    }
  }

  lemma {:induction false} PrintOfBoth(a: seq<Item>, b: seq<Item>)
    ensures Print(a + b) == Print(a) + Print(b)
    decreases |a|
  {
    if a == [] {
      assert a + b == b;
    } else {
      assert (a + b)[1..] == a[1..] + b;
      PrintOfBoth(a[1..], b);
    }
  }

  lemma Seam(a: seq<Item>, b: seq<Item>)
    requires a != [] && b != [] && Last(a).Literal? && b[0].Literal?
    ensures var front, one := a[..|a| - 1], [Literal(Last(a).text + b[0].text)];
      && a == front + [Last(a)] && b == [b[0]] + b[1..]
      && Merge(a, b) == front + (one + b[1..])
  {
  }

  lemma OneItem(item: Item, e: Event, env: Environment)
    ensures Print([item]) == Show(item) && Render([item], e, env) == RenderItem(item, e, env)
  {
  }

  lemma MergePrints(a: seq<Item>, b: seq<Item>, e: Event, env: Environment)
    ensures Print(Merge(a, b)) == Print(a) + Print(b)
  {
    if a != [] && b != [] && Last(a).Literal? && b[0].Literal? {
      var front, one := a[..|a| - 1], Literal(Last(a).text + b[0].text);
      Seam(a, b);
      PrintOfBoth(front, [Last(a)]);
      PrintOfBoth(front, [one] + b[1..]);
      PrintOfBoth([one], b[1..]);
      OneItem(one, e, env);
      OneItem(Last(a), e, env);
    } else {
      PrintOfBoth(a, b);
    }
  }

  lemma MergeRenders(a: seq<Item>, b: seq<Item>, e: Event, env: Environment)
    ensures Render(Merge(a, b), e, env) == Render(a, e, env) + Render(b, e, env)
  {
    if a != [] && b != [] && Last(a).Literal? && b[0].Literal? {
      var front, one := a[..|a| - 1], Literal(Last(a).text + b[0].text);
      Seam(a, b);
      RenderOfBoth(front, [Last(a)], e, env);
      RenderOfBoth(front, [one] + b[1..], e, env);
      RenderOfBoth([one], b[1..], e, env);
      OneItem(one, e, env);
      OneItem(Last(a), e, env);
    } else {
      RenderOfBoth(a, b, e, env);
    }
  }

  /** Canonical lists put together are canonical when the seam does not clash. */
  lemma {:induction false} CanonicalOfBoth(a: seq<Item>, b: seq<Item>)
    requires Canonical(a) && Canonical(b) && (a != [] && b != [] ==> !Clash(Last(a), b[0]))
    ensures Canonical(a + b)
    decreases |a|
  {
    if a == [] {
      assert a + b == b;
    } else {
      assert (a + b)[1..] == a[1..] + b;
      CanonicalOfBoth(a[1..], b);
    }
  }

  lemma {:induction false} CanonicalParts(a: seq<Item>, b: seq<Item>)
    requires Canonical(a + b)
    ensures Canonical(a) && Canonical(b) && (a != [] && b != [] ==> !Clash(Last(a), b[0]))
    decreases |a|
  {
    if a == [] {
      assert a + b == b;
    } else {
      assert (a + b)[1..] == a[1..] + b;
      CanonicalParts(a[1..], b);
    }
  }

  lemma MergeIsCanonical(a: seq<Item>, b: seq<Item>)
    requires Canonical(a) && Canonical(b) && (b != [] && b[0].Literal? && EndsInBareTime(a) ==> b[0].text[0] != '{')
    ensures Canonical(Merge(a, b))
  {
    if a != [] && b != [] && Last(a).Literal? && b[0].Literal? {
      var front, one := a[..|a| - 1], Literal(Last(a).text + b[0].text);
      Seam(a, b);
      CanonicalParts(front, [Last(a)]);
      assert WellMade(Last(a));
      CanonicalParts([b[0]], b[1..]);
      assert Canonical([one]);
      CanonicalOfBoth([one], b[1..]);
      if front != [] {
        assert !Clash(Last(front), Last(a));
        assert one.text[0] == Last(a).text[0];
      }
      CanonicalOfBoth(front, [one] + b[1..]);
    } else {
      CanonicalOfBoth(a, b);
    }
  }

  /** Two patterns that parse: put together they parse to the merged items exactly when the first does not end in a
      bare `%D` with the second starting `{`. */
  lemma ConcatenationParsesIff(p: string, q: string)
    requires ParsePattern(p).Some? && ParsePattern(q).Some?
    ensures var a, b := ParsePattern(p).value, ParsePattern(q).value;
      ParsePattern(p + q) == Some(Merge(a, b)) <==> !(EndsInBareTime(a) && q[0] == '{')
  {
    var a, b := ParsePattern(p).value, ParsePattern(q).value;
    PrintOfParse(p);
    PrintOfParse(q);
    assert b != [] by { assert Print([]) == ""; }
    PrintFront(b);
    ShowNotEmpty(b[0]);
    assert b[0].Literal? ==> q[0] == b[0].text[0];
    MergePrints(a, b, Event("", 0, "", 0, 0, 0, "", "", ""), Environment(0, _ => "", (_, _) => ""));
    if EndsInBareTime(a) && q[0] == '{' {
      assert b[0].Literal?;
      if Canonical(a + b) {
        CanonicalParts(a, b);
      }
      if ParsePattern(p + q) == Some(Merge(a, b)) {
        PrintOfParse(p + q);
      }
    } else {
      MergeIsCanonical(a, b);
      ParseOfPrint(Merge(a, b));
    }
  }

  /** Rendering is compositional: what the joined pattern renders is what the two render, one after the other. */
  lemma RenderingIsCompositional(p: string, q: string, e: Event, env: Environment)
    requires ParsePattern(p).Some? && ParsePattern(q).Some?
    requires !(EndsInBareTime(ParsePattern(p).value) && q[0] == '{')
    ensures ParsePattern(p + q).Some?
    ensures Render(ParsePattern(p + q).value, e, env) ==
              Render(ParsePattern(p).value, e, env) + Render(ParsePattern(q).value, e, env)
  {
    ConcatenationParsesIff(p, q);
    MergeRenders(ParsePattern(p).value, ParsePattern(q).value, e, env);
  }

  /** `%D` and `{` are each patterns; `%D{` is not. */
  lemma BareTimeThenBrace()
    ensures ParsePattern("%D") == Some([TimeDefault]) && ParsePattern("{") == Some([Literal("{")])
    ensures ParsePattern("%D" + "{") == None
  {
    ParseOfPrint([TimeDefault]);
    ParseOfPrint([Literal("{")]);
    assert Print([TimeDefault]) == "%D" && Print([Literal("{")]) == "{";
    var p := "%D" + "{";
    assert p[2] == '{' && |p| == 3;
    FindIs(p, '}', 2, 3);
  }
}
