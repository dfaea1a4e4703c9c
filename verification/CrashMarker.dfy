/** The text of crash.marker: what the signal handler prints and what the next launch parses. */
module CrashMarker {
  import opened Common

  const INT_MIN: int := -0x8000_0000
  const INT_MAX: int := 0x7fff_ffff

  /** The C `int` that a handler receives. */
  type Signal = x: int | INT_MIN <= x <= INT_MAX

  // ---------- printing with the format {"signal":%d,"isAutoRollback":%s} ----------

  function Digit(n: int): char
    requires 0 <= n < 10
  {
    '0' + n as char
  }

  function Decimal(n: nat): string {
    if n < 10 then [Digit(n)] else Decimal(n / 10) + [Digit(n % 10)]
  }

  function PrintInt(n: int): string {
    if n < 0 then "-" + Decimal(-n) else Decimal(n)
  }

  function PrintBool(b: bool): string {
    if b then "true" else "false"
  }

  function PrintMember(name: string, text: string): string {
    "\"" + name + "\":" + text
  }

  function Print(signal: int, isAutoRollback: bool): string {
    "{" + (PrintMember("signal", PrintInt(signal)) +
           ("," + (PrintMember("isAutoRollback", PrintBool(isAutoRollback)) + "}")))
  }

  // ---------- parsing: RFC 8259 sections 3, 4 and 6 for flat objects of integers and booleans ----------

  datatype Value = Number(n: int) | Boolean(b: bool)

  predicate IsDigit(c: char) { '0' <= c <= '9' }

  /** The longest run of digits at the start of s, and the rest. */
  function Digits(s: string): (string, string) {
    if s == [] || !IsDigit(s[0]) then ([], s)
    else var (ds, rest) := Digits(s[1..]); ([s[0]] + ds, rest)
  }

  function NatOf(ds: string): int {
    if ds == [] then 0
    else NatOf(ds[..|ds| - 1]) * 10 + (ds[|ds| - 1] as int - '0' as int)
  }

  /** Section 6 without fraction and exponent: an optional minus, then 0 or digits that do not start with 0. */
  function ParseNumber(s: string): Option<(Value, string)> {
    var negative := s != [] && s[0] == '-';
    var (ds, rest) := Digits(if negative then s[1..] else s);
    if ds == [] || (|ds| > 1 && ds[0] == '0') then None
    else Some((Number(if negative then -NatOf(ds) else NatOf(ds)), rest))
  }

  function ParseValue(s: string): Option<(Value, string)> {
    if |s| >= 4 && s[..4] == "true" then Some((Boolean(true), s[4..]))
    else if |s| >= 5 && s[..5] == "false" then Some((Boolean(false), s[5..]))
    else ParseNumber(s)
  }

  datatype Member = Member(name: string, value: Value, rest: string)

  /** Section 4: a name in quotation marks, a colon and a value. */
  function ParseMember(s: string): Option<Member> {
    if s == [] || s[0] != '"' then None else
    match Break(s[1..], '"')
    case None => None
    case Some((name, afterName)) =>
      if afterName == [] || afterName[0] != ':' then None else
      match ParseValue(afterName[1..])
      case None => None
      case Some((value, rest)) => Some(Member(name, value, rest))
  }

  /** Members separated by commas, up to and including the closing brace. */
  function ParseMembers(s: string): Option<(map<string, Value>, string)>
    decreases |s|
  {
    match ParseMember(s)
    case None => None
    case Some(Member(name, value, rest)) =>
      MemberShrinks(s);
      if rest == [] then None
      else if rest[0] == '}' then Some((map[name := value], rest[1..]))
      else if rest[0] != ',' then None
      else
        match ParseMembers(rest[1..])
        case None => None
        case Some((more, after)) => Some((map[name := value] + more, after))
  }

  function Parse(s: string): Option<map<string, Value>> {
    if s == [] || s[0] != '{' then None else
    match ParseMembers(s[1..])
    case None => None
    case Some((members, rest)) => if rest == [] then Some(members) else None
  }

  /** The launch-time decision: anything but a parsed `true` leaves the release alone. */
  predicate IsAutoRollback(text: string) {
    match Parse(text)
    case None => false
    case Some(members) => "isAutoRollback" in members && members["isAutoRollback"] == Boolean(true)
  }

  // ---------- what the parser leaves over is a proper suffix ----------

  ghost predicate Suffix(rest: string, s: string) {
    |rest| <= |s| && s[|s| - |rest|..] == rest
  }

  lemma SuffixTransitive(a: string, b: string, c: string)
    requires Suffix(a, b) && Suffix(b, c)
    ensures Suffix(a, c)
  {
    assert c[|c| - |a|..] == c[|c| - |b|..][|b| - |a|..];
  }

  lemma TailSuffix(s: string)
    requires s != []
    ensures Suffix(s[1..], s)
  {
  }

  lemma {:induction false} DigitsSuffix(s: string)
    ensures Suffix(Digits(s).1, s)
  {
    if s != [] && IsDigit(s[0]) {
      DigitsSuffix(s[1..]);
      TailSuffix(s);
      SuffixTransitive(Digits(s).1, s[1..], s);
    }
  }

  lemma NumberSuffix(s: string)
    requires ParseNumber(s).Some?
    ensures Suffix(ParseNumber(s).value.1, s)
  {
    DigitsSuffix(s);
    if s != [] && s[0] == '-' {
      DigitsSuffix(s[1..]);
      TailSuffix(s);
      SuffixTransitive(Digits(s[1..]).1, s[1..], s);
    }
  }

  lemma ValueSuffix(s: string)
    requires ParseValue(s).Some?
    ensures Suffix(ParseValue(s).value.1, s)
  {
    if ParseValue(s) == ParseNumber(s) {
      NumberSuffix(s);
    }
  }

  lemma MemberSuffix(s: string)
    requires ParseMember(s).Some?
    ensures Suffix(ParseMember(s).value.rest, s) && |ParseMember(s).value.rest| < |s|
  {
    BreakSound(s[1..], '"');
    var Some((name, afterName)) := Break(s[1..], '"');
    ValueSuffix(afterName[1..]);
    var rest := ParseMember(s).value.rest;
    TailSuffix(s);
    assert Suffix(afterName, s[1..]);
    TailSuffix(afterName);
    SuffixTransitive(rest, afterName[1..], afterName);
    SuffixTransitive(rest, afterName, s[1..]);
    SuffixTransitive(rest, s[1..], s);
  }

  lemma MemberShrinks(s: string)
    ensures ParseMember(s).Some? ==> |ParseMember(s).value.rest| < |s|
  {
    if ParseMember(s).Some? {
      MemberSuffix(s);
    }
  }

  /** The last character the members parser consumes is a closing brace. */
  lemma {:induction false} MembersEndInBrace(s: string)
    requires ParseMembers(s).Some?
    ensures |ParseMembers(s).value.1| < |s| && s[|s| - |ParseMembers(s).value.1| - 1] == '}'
    decreases |s|
  {
    MemberSuffix(s);
    var rest := ParseMember(s).value.rest;
    if rest[0] == ',' {
      MembersEndInBrace(rest[1..]);
      assert s[|s| - |rest|..] == rest;
    }
  }

  // ---------- round trip ----------

  lemma {:induction false} DigitsFinds(ds: string, rest: string)
    requires forall c :: c in ds ==> IsDigit(c)
    requires rest != [] ==> !IsDigit(rest[0])
    ensures Digits(ds + rest) == (ds, rest)
  {
    if ds == [] {
      assert ds + rest == rest;
    } else {
      assert (ds + rest)[1..] == ds[1..] + rest && [ds[0]] + ds[1..] == ds;
      DigitsFinds(ds[1..], rest);
    }
  }

  lemma {:induction false} DecimalReads(n: nat)
    ensures Decimal(n) != [] && NatOf(Decimal(n)) == n
    ensures forall c :: c in Decimal(n) ==> IsDigit(c)
    ensures Decimal(n)[0] == '0' ==> n == 0
  {
    if n >= 10 {
      DecimalReads(n / 10);
      var ds := Decimal(n);
      assert ds[..|ds| - 1] == Decimal(n / 10) && ds[0] == Decimal(n / 10)[0];
    } else {
      assert Decimal(n)[..0] == [];
    }
  }

  lemma DigitsRead(m: nat, rest: string)
    requires rest != [] ==> !IsDigit(rest[0])
    ensures ParseNumber(Decimal(m) + rest) == Some((Number(m), rest))
    ensures ParseNumber(['-'] + (Decimal(m) + rest)) == Some((Number(0 - m), rest))
    ensures Decimal(m) != [] && IsDigit(Decimal(m)[0])
  {
    var ds := Decimal(m);
    DecimalReads(m);
    DigitsFinds(ds, rest);
    assert m == 0 ==> |ds| == 1;
    assert (ds + rest)[0] == ds[0];
    assert (['-'] + (ds + rest))[1..] == ds + rest;
  }

  lemma NumberReads(n: int, rest: string)
    requires rest != [] ==> !IsDigit(rest[0])
    ensures ParseValue(PrintInt(n) + rest) == Some((Number(n), rest))
  {
    var m: nat := if n < 0 then -n else n;
    DigitsRead(m, rest);
    if n < 0 {
      assert PrintInt(n) + rest == ['-'] + (Decimal(m) + rest);
    }
    NotLiteral(PrintInt(n) + rest);
  }

  lemma NotLiteral(s: string)
    requires s != [] && s[0] != 't' && s[0] != 'f'
    ensures ParseValue(s) == ParseNumber(s)
  {
    assert "true"[0] == 't' && "false"[0] == 'f';
    assert |s| >= 4 ==> s[..4][0] == s[0];
    assert |s| >= 5 ==> s[..5][0] == s[0];
  }

  lemma BooleanReads(flag: bool, rest: string)
    ensures ParseValue(PrintBool(flag) + rest) == Some((Boolean(flag), rest))
  {
    var s := PrintBool(flag) + rest;
    if flag {
      assert s[..4] == "true" && s[4..] == rest;
    } else {
      assert s[..4][0] == 'f' && "true"[0] == 't';
      assert s[..5] == "false" && s[5..] == rest;
    }
  }

  lemma MemberReads(name: string, text: string, value: Value, rest: string)
    requires '"' !in name
    requires ParseValue(text + rest) == Some((value, rest))
    ensures ParseMember(PrintMember(name, text) + rest) == Some(Member(name, value, rest))
  {
    var s := PrintMember(name, text) + rest;
    var afterName := ":" + (text + rest);
    assert s == ['"'] + (name + ['"'] + afterName);
    BreakFinds(name, '"', afterName);
    assert afterName[1..] == text + rest;
  }

  /** The marker of any signal number parses, on the next launch, to the number and flag that were printed. */
  lemma MarkerReads(signal: int, flag: bool)
    ensures Parse(Print(signal, flag)) ==
            Some(map["signal" := Number(signal), "isAutoRollback" := Boolean(flag)])
    ensures IsAutoRollback(Print(signal, flag)) == flag
  {
    var second := PrintMember("isAutoRollback", PrintBool(flag)) + "}";
    BooleanReads(flag, "}");
    MemberReads("isAutoRollback", PrintBool(flag), Boolean(flag), "}");
    assert "}"[1..] == [];
    assert ParseMembers(second) == Some((map["isAutoRollback" := Boolean(flag)], []));
    var rest := "," + second;
    assert rest[1..] == second;
    var first := PrintMember("signal", PrintInt(signal)) + rest;
    NumberReads(signal, rest);
    MemberReads("signal", PrintInt(signal), Number(signal), rest);
    var sig, auto := "signal", "isAutoRollback";
    assert |sig| == 6 && |auto| == 14;
    assert map[sig := Number(signal)] + map[auto := Boolean(flag)] ==
           map[sig := Number(signal), auto := Boolean(flag)];
    assert ParseMembers(first) ==
           Some((map["signal" := Number(signal)] + map["isAutoRollback" := Boolean(flag)], []));
    assert Print(signal, flag) == "{" + first;
    assert Print(signal, flag)[1..] == first;
  }

  function Pow10(k: nat): nat {
    if k == 0 then 1 else 10 * Pow10(k - 1)
  }

  /** The digits of a number, written with "0123456789". */
  lemma DecimalIs(n: nat)
    ensures n < 10 ==> Decimal(n) == ["0123456789"[n]]
    ensures n >= 10 ==> Decimal(n) == Decimal(n / 10) + ["0123456789"[n % 10]]
  {
    DigitIs(n % 10);
  }

  lemma DigitIs(n: int)
    requires 0 <= n < 10
    ensures Digit(n) == "0123456789"[n]
  {
  }

  /** The text that is written, piece by piece: {"signal":<number>,"isAutoRollback":<true or false>} without spaces. */
  lemma MarkerText(signal: int, flag: bool)
    ensures Print(signal, flag) ==
            "{" + ("\"" + "signal" + "\":" + PrintInt(signal)
                   + ("," + ("\"" + "isAutoRollback" + "\":" + (if flag then "true" else "false") + "}")))
    ensures PrintInt(signal) == if signal < 0 then "-" + Decimal(-signal) else Decimal(signal)
  {
  }

  // ---------- the fixed buffers ----------

  /** snprintf into a buffer of `size` bytes: what does not fit, with the terminator, is dropped. */
  function Snprintf(size: nat, text: string): string
    requires size > 0
  {
    if |text| < size then text else text[..size - 1]
  }

  lemma {:induction false} DecimalWidth(n: nat, width: nat)
    requires width >= 1 && n < Pow10(width)
    ensures |Decimal(n)| <= width
  {
    if n >= 10 {
      DecimalWidth(n / 10, width - 1);
    }
  }

  /** The printed marker never exceeds 45 characters, so the 256-byte buffer holds it with its terminator. */
  lemma MarkerFits(signal: Signal, flag: bool)
    ensures |Print(signal, flag)| <= 45
    ensures Snprintf(256, Print(signal, flag)) == Print(signal, flag)
  {
    var n: int := signal;
    var m: nat := if n < 0 then -n else n;
    assert Pow10(10) == 10_000_000_000 by {
      assert Pow10(4) == 10_000;
      assert Pow10(7) == 1000 * Pow10(4);
      assert Pow10(10) == 1000 * Pow10(7);
    }
    DecimalWidth(m, 10);
    assert |PrintInt(n)| <= 11;
    assert |PrintBool(flag)| <= 5;
  }

  const PATH_BUFFER_SIZE: nat := 512

  /** For a base directory without NUL bytes the handler's two buffers name the files that the Kotlin and
      Swift sides use exactly when the directory's path has at most 498 bytes. */
  lemma PathBuffersAgree(base: string)
    ensures Snprintf(PATH_BUFFER_SIZE, base + "/crash.marker") == base + "/crash.marker" <==> |base| <= 498
    ensures Snprintf(PATH_BUFFER_SIZE, base + "/mount.marker") == base + "/mount.marker" <==> |base| <= 498
  {
    assert |"/crash.marker"| == 13 && |"/mount.marker"| == 13;
  }

  /** The two buffers name different files exactly when the first letter of the file name survives:
      from 510 bytes on, writing the crash marker would open the mount marker's path. */
  lemma PathBuffersDistinct(base: string)
    ensures Snprintf(PATH_BUFFER_SIZE, base + "/crash.marker") != Snprintf(PATH_BUFFER_SIZE, base + "/mount.marker")
            <==> |base| <= 509
  {
    var crash, mount := base + "/crash.marker", base + "/mount.marker";
    var c, m := Snprintf(PATH_BUFFER_SIZE, crash), Snprintf(PATH_BUFFER_SIZE, mount);
    if |base| <= 509 {
      assert c[|base| + 1] == 'c' && m[|base| + 1] == 'm';
    } else {
      assert forall i :: 0 <= i < 511 ==> crash[i] == mount[i];
      assert c == m;
    }
  }

  // ---------- a marker whose write was cut short ----------

  lemma OneBrace(signal: int, flag: bool)
    ensures '}' !in Print(signal, flag)[..|Print(signal, flag)| - 1]
  {
    var m: nat := if signal < 0 then -signal else signal;
    DecimalReads(m);
    var a, b := PrintMember("signal", PrintInt(signal)), PrintMember("isAutoRollback", PrintBool(flag));
    assert '}' !in PrintInt(signal) && '}' !in PrintBool(flag);
    assert '}' !in a && '}' !in b;
    assert Print(signal, flag)[..|Print(signal, flag)| - 1] == "{" + (a + ("," + b));
  }

  /** Every strict prefix of a marker, the empty file included, is rejected by the parser. */
  lemma TornMarkerIsIgnored(signal: int, flag: bool, k: nat)
    requires k < |Print(signal, flag)|
    ensures Parse(Print(signal, flag)[..k]).None?
    ensures !IsAutoRollback(Print(signal, flag)[..k])
  {
    var whole := Print(signal, flag);
    var text := whole[..k];
    OneBrace(signal, flag);
    assert forall c :: c in text ==> c in whole[..|whole| - 1];
    if Parse(text).Some? {
      MembersEndInBrace(text[1..]);
      assert false;
    }
  }
}
