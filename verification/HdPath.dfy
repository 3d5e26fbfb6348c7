/** Parsing and printing the derivation paths of hierarchical deterministic wallets. */
module HdPath {
  import opened Transactions

  const HARDENED: nat := 0x8000_0000
  const MAX_UINT32: nat := 0xFFFF_FFFF

  /** A sequence of 32-bit components. */
  type Path = seq<nat>

  /** Why a path is refused. */
  datatype PathError = EmptyPath | AmbiguousPath | InvalidComponent(text: string) | OutOfRange(value: int, hardened: bool)

  datatype Parsed<T> = Ok(value: T) | Err(error: PathError)

  const DEFAULT_ROOT: Path := [HARDENED + 44, HARDENED + 60, HARDENED, 0]

  ghost predicate Words(p: Path) {
    forall i :: 0 <= i < |p| ==> p[i] <= MAX_UINT32
  }

  // ------------------------------------------------------------------- strings

  /** White space as Unicode defines it. */
  predicate IsSpace(c: char) {
    var x := c as int;
    9 <= x <= 13 || x == 32 || x == 0x85 || x == 0xA0 || x == 0x1680 || 0x2000 <= x <= 0x200A
    || x == 0x2028 || x == 0x2029 || x == 0x202F || x == 0x205F || x == 0x3000
  }

  function TrimLeft(s: string): (r: string) {
    if s != "" && IsSpace(s[0]) then TrimLeft(s[1..]) else s
  }

  function TrimRight(s: string): (r: string) {
    if s != "" && IsSpace(s[|s| - 1]) then TrimRight(s[..|s| - 1]) else s
  }

  function TrimSpace(s: string): (r: string) {
    TrimRight(TrimLeft(s))
  }

  /** The parts between slashes; always at least one. */
  function Split(s: string): (r: seq<string>)
    ensures |r| >= 1
  {
    if s == "" then [""]
    else
      var rest := Split(s[1..]);
      if s[0] == '/' then [""] + rest else [[s[0]] + rest[0]] + rest[1..]
  }

  lemma {:induction false} SplitPlain(s: string)
    requires '/' !in s
    ensures Split(s) == [s]
  {
    if s != "" {
      SplitPlain(s[1..]);
      assert [s[0]] + s[1..] == s;
    }
  }

  lemma {:induction false} SplitAppend(s: string, c: string)
    requires '/' !in c
    ensures Split(s + "/" + c) == Split(s) + [c]
  {
    var all := s + "/" + c;
    if s == "" {
      assert all[1..] == c;
      SplitPlain(c);
    } else {
      assert all[1..] == s[1..] + "/" + c;
      SplitAppend(s[1..], c);
    }
  }

  // ------------------------------------------------------------------- numbers

  /** The value of a digit or letter, or 36 for any other character. */
  function DigitValue(c: char): (d: nat) {
    if '0' <= c <= '9' then c as int - '0' as int
    else if 'a' <= c <= 'z' then c as int - 'a' as int + 10
    else if 'A' <= c <= 'Z' then c as int - 'A' as int + 10
    else 36
  }

  /** Digits of a base, with single underscores after a digit or prefix allowed. */
  function Digits(s: string, base: nat, afterDigit: bool, acc: nat): (r: Option<nat>) {
    if s == "" then (if afterDigit then Some(acc) else None)
    else if s[0] == '_' then (if afterDigit then Digits(s[1..], base, false, acc) else None)
    else if DigitValue(s[0]) < base then Digits(s[1..], base, true, acc * base + DigitValue(s[0]))
    else None
  }

  /** An unsigned number whose prefix selects the base. */
  function ScanNat(s: string): (r: Option<nat>) {
    if |s| >= 2 && s[0] == '0' then
      var base := if s[1] in "bB" then 2 else if s[1] in "oO" then 8 else if s[1] in "xX" then 16 else 0;
      if base == 0 then Digits(s[1..], 8, true, 0)
      else if |s| == 2 then None
      else Digits(s[2..], base, true, 0)
    else Digits(s, 10, false, 0)
  }

  function SetString(s: string): (r: Option<int>) {
    if s != "" && s[0] in "+-" then
      match ScanNat(s[1..])
      case None => None
      case Some(v) => var x: int := v; Some(if s[0] == '-' then -x else x)
    else
      match ScanNat(s)
      case None => None
      case Some(v) => Some(v)
  }

  function DigitChar(d: nat): (c: char)
    requires d < 10
    ensures '0' <= c <= '9' && DigitValue(c) == d
  {
    ('0' as int + d) as char
  }

  /** The decimal digits of a number. */
  function Decimal(n: nat): (s: string)
    ensures |s| >= 1 && (forall i :: 0 <= i < |s| ==> '0' <= s[i] <= '9')
    ensures n > 0 ==> s[0] != '0'
  {
    if n < 10 then [DigitChar(n)] else Decimal(n / 10) + [DigitChar(n % 10)]
  }

  /** Reading decimal digits. */
  function Value(s: string, acc: nat): (n: nat) {
    if s == "" then acc else Value(s[1..], acc * 10 + DigitValue(s[0]))
  }

  lemma {:induction false} ValueAppend(s: string, c: char, acc: nat)
    ensures Value(s + [c], acc) == Value(s, acc) * 10 + DigitValue(c)
  {
    if s == "" {
      assert s + [c] == [c];
      assert [c][1..] == "";
    } else {
      assert (s + [c])[1..] == s[1..] + [c];
      ValueAppend(s[1..], c, acc * 10 + DigitValue(s[0]));
    }
  }

  lemma {:induction false} DecimalValue(n: nat)
    ensures Value(Decimal(n), 0) == n
  {
    if n < 10 {
      assert Decimal(n)[1..] == "";
    } else {
      DecimalValue(n / 10);
      ValueAppend(Decimal(n / 10), DigitChar(n % 10), 0);
    }
  }

  lemma {:induction false} DigitsValue(s: string, afterDigit: bool, acc: nat)
    requires (s != "" || afterDigit) && forall i :: 0 <= i < |s| ==> '0' <= s[i] <= '9'
    ensures Digits(s, 10, afterDigit, acc) == Some(Value(s, acc))
  {
    if s != "" {
      DigitsValue(s[1..], true, acc * 10 + DigitValue(s[0]));
    }
  }

  /** Reading a printed number gives it back. */
  lemma DecimalRoundTrip(n: nat)
    ensures SetString(Decimal(n)) == Some(n)
  {
    DecimalValue(n);
    DigitsValue(Decimal(n), false, 0);
    assert n == 0 ==> Decimal(n) == "0";
  }

  // ------------------------------------------------------------------- paths

  /** One component: a number in range, hardened when an apostrophe follows. */
  function ParseComponent(c: string): (r: Parsed<nat>)
    ensures r.Ok? ==> r.value <= MAX_UINT32
  {
    var trimmed := TrimSpace(c);
    var hardened := trimmed != "" && trimmed[|trimmed| - 1] == '\'';
    var digits := if hardened then TrimSpace(trimmed[..|trimmed| - 1]) else trimmed;
    var offset := if hardened then HARDENED else 0;
    match SetString(digits)
    case None => Err(InvalidComponent(digits))
    case Some(v) => if v < 0 || v > MAX_UINT32 - offset then Err(OutOfRange(v, hardened)) else Ok(offset + v)
  }

  /** All components, or the error of the first bad one. */
  function ParseAll(cs: seq<string>): (r: Parsed<Path>) {
    if cs == [] then Ok([])
    else
      match ParseAll(cs[..|cs| - 1])
      case Err(e) => Err(e)
      case Ok(front) =>
        match ParseComponent(cs[|cs| - 1])
        case Err(e) => Err(e)
        case Ok(v) => Ok(front + [v])
  }

  function Under(root: Path, p: Parsed<Path>): (r: Parsed<Path>) {
    if p.Err? then p else Ok(root + p.value)
  }

  /** An absolute path starts with m; a relative one continues the default root; a leading slash is refused. */
  function Parse(path: string): (r: Parsed<Path>) {
    var cs := Split(path);
    var first := TrimSpace(cs[0]);
    if first == "" then Err(AmbiguousPath)
    else if first == "m" then (if |cs| == 1 then Err(EmptyPath) else Under([], ParseAll(cs[1..])))
    else Under(DEFAULT_ROOT, ParseAll(cs))
  }

  function PrintComponent(v: nat): (s: string)
    ensures '/' !in s
  {
    if v >= HARDENED then Decimal(v - HARDENED) + "'" else Decimal(v)
  }

  function Print(p: Path): (s: string) {
    if p == [] then "m" else Print(p[..|p| - 1]) + "/" + PrintComponent(p[|p| - 1])
  }

  /** The loop over the components: appends each value to the root, or fails. */
  method ParseComponents(root: Path, components: seq<string>) returns (r: Parsed<Path>)
    ensures r == Under(root, ParseAll(components))
  {
    var result: Path := root;
    for i := 0 to |components|
      invariant ParseAll(components[..i]).Ok? && result == root + ParseAll(components[..i]).value
    {
      assert components[..i + 1][..i] == components[..i];
      var value := ParseComponent(components[i]);
      if value.Err? {
        FailsEarly(components, i + 1);
        return Err(value.error);
      }
      result := result + [value.value];
    }
    assert components[..|components|] == components;
    return Ok(result);
  }

  method ParseDerivationPath(path: string) returns (r: Parsed<Path>)
    ensures r == Parse(path)
  {
    var components := Split(path);
    var result: Path := [];
    var first := TrimSpace(components[0]);
    if first == "" {
      return Err(AmbiguousPath);
    } else if first == "m" {
      components := components[1..];
    } else {
      result := DEFAULT_ROOT;
    }
    if |components| == 0 {
      return Err(EmptyPath);
    }
    r := ParseComponents(result, components);
  }

  /** Once a component fails, the path does, with the same error. */
  lemma {:induction false} FailsEarly(cs: seq<string>, i: nat)
    requires i <= |cs| && ParseAll(cs[..i]).Err?
    ensures ParseAll(cs) == ParseAll(cs[..i])
    decreases |cs|
  {
    if i < |cs| {
      assert cs[..|cs| - 1][..i] == cs[..i];
      FailsEarly(cs[..|cs| - 1], i);
    } else {
      assert cs[..i] == cs;
    }
  }

  /** What each component gives. */
  ghost function Results(cs: seq<string>): (rs: seq<Parsed<nat>>)
    ensures |rs| == |cs|
  {
    if cs == [] then [] else Results(cs[..|cs| - 1]) + [ParseComponent(cs[|cs| - 1])]
  }

  /** The first refusal, with its error. */
  ghost predicate FirstBad(rs: seq<Parsed<nat>>, i: nat, e: PathError) {
    i < |rs| && rs[i] == Err(e) && forall k :: 0 <= k < i ==> rs[k].Ok?
  }

  ghost predicate AllGood(rs: seq<Parsed<nat>>) {
    forall k :: 0 <= k < |rs| ==> rs[k].Ok?
  }

  /** All components or nothing, and a failure has the error of the first bad component. */
  lemma {:induction false} FailsAtFirst(cs: seq<string>)
    ensures ParseAll(cs).Ok? <==> AllGood(Results(cs))
    ensures ParseAll(cs).Err? ==> exists i: nat :: FirstBad(Results(cs), i, ParseAll(cs).error)
  {
    if cs != [] {
      var front := cs[..|cs| - 1];
      FailsAtFirst(front);
      var rs, last := Results(front), ParseComponent(cs[|cs| - 1]);
      assert Results(cs) == rs + [last];
      if ParseAll(front).Err? {
        var i: nat :| FirstBad(rs, i, ParseAll(front).error);
        assert FirstBad(rs + [last], i, ParseAll(front).error);
      } else if last.Err? {
        assert FirstBad(rs + [last], |rs|, last.error);
      }
    }
  }

  /** The printing loop. */
  method PrintPath(p: Path) returns (s: string)
    ensures s == Print(p)
  {
    s := "m";
    for i := 0 to |p|
      invariant s == Print(p[..i])
    {
      assert p[..i + 1][..i] == p[..i];
      var component, hardened := p[i], false;
      if component >= HARDENED {
        component, hardened := component - HARDENED, true;
      }
      var before := s;
      s := s + "/" + Decimal(component);
      if hardened {
        s := s + "'";
        assert s == before + "/" + (Decimal(component) + "'");
      }
    }
    assert p[..|p|] == p;
  }

  lemma {:induction false} ParsedWords(cs: seq<string>)
    requires ParseAll(cs).Ok?
    ensures Words(ParseAll(cs).value) && |ParseAll(cs).value| == |cs|
  {
    if cs != [] {
      ParsedWords(cs[..|cs| - 1]);
    }
  }

  /** A parsed path is not empty and consists of 32-bit components. */
  lemma ParseResult(path: string)
    requires Parse(path).Ok?
    ensures Parse(path).value != [] && Words(Parse(path).value)
  {
    var cs := Split(path);
    ParsedWords(if TrimSpace(cs[0]) == "m" then cs[1..] else cs);
    assert Words(DEFAULT_ROOT);
  }

  lemma NoSpaces(s: string)
    requires s != "" && !IsSpace(s[0]) && !IsSpace(s[|s| - 1])
    ensures TrimSpace(s) == s
  {
  }

  lemma ComponentRoundTrip(v: nat)
    requires v <= MAX_UINT32
    ensures ParseComponent(PrintComponent(v)) == Ok(v)
  {
    var n := if v >= HARDENED then v - HARDENED else v;
    var digits := Decimal(n);
    NoSpaces(digits);
    NoSpaces(PrintComponent(v));
    DecimalRoundTrip(n);
    if v >= HARDENED {
      assert PrintComponent(v)[..|digits|] == digits;
    }
  }

  /** The printed components. */
  ghost function Parts(p: Path): (r: seq<string>)
    ensures |r| == |p|
  {
    if p == [] then [] else Parts(p[..|p| - 1]) + [PrintComponent(p[|p| - 1])]
  }

  lemma {:induction false} PrintSplit(p: Path)
    ensures Split(Print(p)) == ["m"] + Parts(p)
  {
    if p == [] {
      SplitPlain("m");
    } else {
      PrintSplit(p[..|p| - 1]);
      SplitAppend(Print(p[..|p| - 1]), PrintComponent(p[|p| - 1]));
    }
  }

  lemma ParseOneMore(cs: seq<string>, front: Path, c: string, v: nat)
    requires ParseAll(cs) == Ok(front) && ParseComponent(c) == Ok(v)
    ensures ParseAll(cs + [c]) == Ok(front + [v])
  {
    assert (cs + [c])[..|cs|] == cs;
  }

  lemma {:induction false} ParsePrinted(p: Path)
    requires Words(p)
    ensures ParseAll(Parts(p)) == Ok(p)
  {
    if p != [] {
      var front, last := p[..|p| - 1], p[|p| - 1];
      assert p == front + [last];
      ParsePrinted(front);
      ComponentRoundTrip(last);
      ParseOneMore(Parts(front), front, PrintComponent(last), last);
    }
  }

  /** Parsing the printed form of a non-empty path of 32-bit components gives the path back. */
  lemma RoundTrip(p: Path)
    requires p != [] && Words(p)
    ensures Parse(Print(p)) == Ok(p)
  {
    PrintSplit(p);
    NoSpaces("m");
    ParsePrinted(p);
    assert (["m"] + Parts(p))[1..] == Parts(p);
    assert [] + p == p;
  }

  /** Printing a parsed path gives a string that parsing and printing again leaves alone. */
  lemma PrintedIsFixed(path: string)
    requires Parse(path).Ok?
    ensures var s := Print(Parse(path).value); Parse(s) == Parse(path) && Print(Parse(s).value) == s
  {
    ParseResult(path);
    RoundTrip(Parse(path).value);
  }

  /** The empty path prints to something that does not parse. */
  lemma NoComponents()
    ensures Parse(Print([])) == Err(EmptyPath)
  {
    SplitPlain("m");
    NoSpaces("m");
  }
}
