/** The `out_mode` attribute: strconv.ParseInt(s, 8, 32) as the Go standard
    library defines it, the conversion to os.FileMode, and the decimal
    rendering Update writes back (internal/archive/resource.go). */
module ModeParse {
  import opened Wrappers
  import opened FileSystem
  import opened Settings

  /** The two errors strconv reports: ErrSyntax and ErrRange. */
  datatype NumError = SyntaxError | RangeError

  /** A parse result: strconv returns a value alongside its error. */
  datatype Parsed = Parsed(value: int, err: Option<NumError>)

  const MaxUint32: int := 0xFFFF_FFFF
  /** 1 << (bitSize - 1) for bitSize 32. */
  const Cutoff32: int := 0x8000_0000

  predicate IsOctalDigit(c: char) {
    '0' <= c <= '7'
  }

  predicate AllOctal(s: string) {
    forall i :: 0 <= i < |s| ==> IsOctalDigit(s[i])
  }

  /** The number an all-octal-digit string denotes. */
  function OctalValue(s: string): (v: nat)
    requires AllOctal(s)
  {
    if |s| == 0 then 0 else 8 * OctalValue(s[..|s| - 1]) + (s[|s| - 1] as int - '0' as int)
  }

  /** One iteration of ParseUint's digit loop for base 8 and bitSize 32:
      a character that is not an octal digit stops it with a syntax error
      and 0, a value past MaxUint32 stops it with a range error and MaxUint32. */
  function Step(prev: Parsed, c: char): (r: Parsed)
    requires prev.err.None?
  {
    if !IsOctalDigit(c) then Parsed(0, Some(SyntaxError))
    else
      var n1 := prev.value * 8 + (c as int - '0' as int);
      if n1 > MaxUint32 then Parsed(MaxUint32, Some(RangeError))
      else Parsed(n1, None)
  }

  /** The state of the digit loop after the characters of `s`: the
      accumulated value, or what the first failing step returned. */
  function ParsePrefix(s: string): (r: Parsed)
    ensures 0 <= r.value <= MaxUint32
    ensures r.err == Some(SyntaxError) ==> r.value == 0
    ensures r.err == Some(RangeError) ==> r.value == MaxUint32
  {
    if |s| == 0 then Parsed(0, None)
    else
      var prev := ParsePrefix(s[..|s| - 1]);
      if prev.err.Some? then prev else Step(prev, s[|s| - 1])
  }

  lemma ParsePrefixSnoc(p: string, c: char)
    ensures ParsePrefix(p + [c]) == if ParsePrefix(p).err.Some? then ParsePrefix(p) else Step(ParsePrefix(p), c)
  {
    assert (p + [c])[..|p|] == p;
  }

  /** The loop returns at its first error: nothing after it is read. */
  lemma {:induction false} StopsAtFirstError(p: string, q: string)
    requires ParsePrefix(p).err.Some?
    ensures ParsePrefix(p + q) == ParsePrefix(p)
    decreases |q|
  {
    if |q| > 0 {
      var init := q[..|q| - 1];
      StopsAtFirstError(p, init);
      assert p + q == (p + init) + [q[|q| - 1]];
      ParsePrefixSnoc(p + init, q[|q| - 1]);
    } else {
      assert p + q == p;
    }
  }

  /** strconv.ParseUint(s, 8, 32). */
  function ParseUint(s: string): (r: Parsed)
    ensures s == "" ==> r == Parsed(0, Some(SyntaxError))
    ensures 0 <= r.value <= MaxUint32
    ensures r.err == Some(RangeError) ==> r.value == MaxUint32
  {
    if s == "" then Parsed(0, Some(SyntaxError)) else ParsePrefix(s)
  }

  /** strconv.ParseInt(s, 8, 32): an optional sign, the unsigned parse, and
      clamping to the int32 range on overflow. A syntax error returns 0. */
  function ParseInt(s: string): (r: Parsed)
    ensures -Cutoff32 <= r.value < Cutoff32
    ensures r.err == Some(SyntaxError) ==> r.value == 0
    ensures r.err == Some(RangeError) ==> r.value == Cutoff32 - 1 || r.value == -Cutoff32
  {
    if s == "" then Parsed(0, Some(SyntaxError))
    else
      var neg := s[0] == '-';
      var digits := if s[0] == '+' || s[0] == '-' then s[1..] else s;
      var un := ParseUint(digits);
      if un.err == Some(SyntaxError) then Parsed(0, Some(SyntaxError))
      else if !neg && un.value >= Cutoff32 then Parsed(Cutoff32 - 1, Some(RangeError))
      else if neg && un.value > Cutoff32 then Parsed(-Cutoff32, Some(RangeError))
      else Parsed(if neg then -un.value else un.value, None)
  }

  lemma {:induction false} OctalValueOfPrefix(s: string)
    requires |s| > 0 && AllOctal(s)
    ensures AllOctal(s[..|s| - 1]) && OctalValue(s[..|s| - 1]) <= OctalValue(s)
  {
  }

  /** The digit loop succeeds exactly on strings of octal digits whose value
      fits in 32 bits, and then yields that value. */
  lemma {:induction false} ParsePrefixValue(s: string)
    ensures ParsePrefix(s).err.None? <==> AllOctal(s) && OctalValue(s) <= MaxUint32
    ensures ParsePrefix(s).err.None? ==> ParsePrefix(s).value == OctalValue(s)
    ensures AllOctal(s) ==> ParsePrefix(s).err != Some(SyntaxError)
    decreases |s|
  {
    if |s| > 0 {
      var init := s[..|s| - 1];
      ParsePrefixValue(init);
      if AllOctal(s) {
        OctalValueOfPrefix(s);
      } else if AllOctal(init) {
        assert !IsOctalDigit(s[|s| - 1]);
      }
    }
  }

  /** ParseInt accepts exactly an optional sign followed by a non-empty run
      of octal digits whose value fits in int32, and returns that value with
      the sign applied. */
  lemma ParseIntAccepts(s: string)
    ensures ParseInt(s).err.None? <==>
              |s| > 0 &&
              var neg := s[0] == '-';
              var digits := if s[0] == '+' || s[0] == '-' then s[1..] else s;
              |digits| > 0 && AllOctal(digits) &&
              (if neg then OctalValue(digits) <= Cutoff32 else OctalValue(digits) < Cutoff32)
    ensures ParseInt(s).err.None? ==>
              var digits := if s[0] == '+' || s[0] == '-' then s[1..] else s;
              ParseInt(s).value == (if s[0] == '-' then -1 else 1) * OctalValue(digits)
  {
    if |s| > 0 {
      var digits := if s[0] == '+' || s[0] == '-' then s[1..] else s;
      if |digits| > 0 {
        ParsePrefixValue(digits);
        var un := ParseUint(digits);
        assert un == ParsePrefix(digits);
        match un.err
        case Some(RangeError) =>
          assert !(AllOctal(digits) && OctalValue(digits) <= MaxUint32);
        case Some(SyntaxError) =>
          assert !AllOctal(digits);
        case None =>
          assert un.value == OctalValue(digits);
      }
    }
  }

  lemma FiveSevens()
    ensures ParsePrefix("77777") == Parsed(0x7FFF, None)
  {
    ParsePrefixSnoc("", '7');
    assert "" + ['7'] == "7";
    ParsePrefixSnoc("7", '7');
    assert "7" + ['7'] == "77";
    ParsePrefixSnoc("77", '7');
    assert "77" + ['7'] == "777";
    ParsePrefixSnoc("777", '7');
    assert "777" + ['7'] == "7777";
    ParsePrefixSnoc("7777", '7');
    assert "7777" + ['7'] == "77777";
  }

  lemma TenSevens()
    ensures ParsePrefix("7777777777") == Parsed(0x3FFF_FFFF, None)
  {
    FiveSevens();
    ParsePrefixSnoc("77777", '7');
    assert "77777" + ['7'] == "777777";
    ParsePrefixSnoc("777777", '7');
    assert "777777" + ['7'] == "7777777";
    ParsePrefixSnoc("7777777", '7');
    assert "7777777" + ['7'] == "77777777";
    ParsePrefixSnoc("77777777", '7');
    assert "77777777" + ['7'] == "777777777";
    ParsePrefixSnoc("777777777", '7');
    assert "777777777" + ['7'] == "7777777777";
  }

  /** Overflow is reported as soon as it happens: a bad digit after the
      point of overflow is never looked at, so this is a range error
      clamped to the largest int32, not a syntax error. */
  lemma RangeErrorBeforeSyntaxError()
    ensures ParseInt("777777777779") == Parsed(Cutoff32 - 1, Some(RangeError))
  {
    TenSevens();
    ParsePrefixSnoc("7777777777", '7');
    assert "7777777777" + ['7'] == "77777777777";
    StopsAtFirstError("77777777777", "9");
    assert "77777777777" + "9" == "777777777779";
  }

  /** The octal digits of a natural number, most significant first. */
  function OctalString(n: nat): (s: string)
    ensures |s| > 0 && AllOctal(s)
  {
    var d := ['0' + ((n % 8) as char)];
    if n < 8 then d else OctalString(n / 8) + d
  }

  lemma {:induction false} OctalRoundTrip(n: nat)
    ensures OctalValue(OctalString(n)) == n
  {
    if n >= 8 {
      OctalRoundTrip(n / 8);
      var s := OctalString(n);
      assert s[..|s| - 1] == OctalString(n / 8);
    }
  }

  /** Every int32 value is parsed back from its octal rendering. */
  lemma ParseIntRoundTrip(n: int)
    requires -Cutoff32 <= n < Cutoff32
    ensures n >= 0 ==> ParseInt(OctalString(n)) == Parsed(n, None)
    ensures n < 0 ==> ParseInt("-" + OctalString(-n)) == Parsed(n, None)
  {
    if n >= 0 {
      var s := OctalString(n);
      OctalRoundTrip(n);
      ParseIntAccepts(s);
    } else {
      var s := "-" + OctalString(-n);
      OctalRoundTrip(-n);
      assert s[1..] == OctalString(-n);
      ParseIntAccepts(s);
    }
  }

  /** os.FileMode(m): the int64 is converted to a uint32, keeping its low 32 bits. */
  function ToFileMode(m: int): (r: FileMode)
    ensures 0 <= m <= MaxUint32 ==> r == m
    ensures -Cutoff32 <= m < 0 ==> r == m + MaxUint32 + 1
  {
    m % (MaxUint32 + 1)
  }

  /** The mode Create gives the archive: DefaultArchiveMode when out_mode is
      null; otherwise whatever ParseInt returned, converted, even when it
      reported an error (which only raises a warning). */
  datatype CreateMode = CreateMode(mode: FileMode, warning: bool)

  function ModeForCreate(outMode: Option<string>): (r: CreateMode)
    ensures outMode.None? ==> r == CreateMode(DefaultArchiveMode, false)
    ensures outMode.Some? ==> r.warning == ParseInt(outMode.value).err.Some?
    ensures outMode.Some? ==> r.mode == ToFileMode(ParseInt(outMode.value).value)
  {
    match outMode
    case None => CreateMode(DefaultArchiveMode, false)
    case Some(s) =>
      var m := ParseInt(s);
      CreateMode(ToFileMode(m.value), m.err.Some?)
  }

  /** A malformed out_mode does not fall back to the default: the archive mode becomes 0. */
  lemma MalformedModeIsZero()
    ensures ModeForCreate(Some("rw-r--r--")) == CreateMode(0, true)
    ensures ModeForCreate(Some("")) == CreateMode(0, true)
  {
    ParsePrefixSnoc("", 'r');
    assert "" + ['r'] == "r";
    StopsAtFirstError("r", "w-r--r--");
    assert "r" + "w-r--r--" == "rw-r--r--";
  }

  /** A negative out_mode wraps around to a large mode. */
  lemma NegativeModeWraps()
    ensures ModeForCreate(Some("-1")) == CreateMode(MaxUint32, false)
  {
    assert "-1"[1..] == "1";
    ParseIntAccepts("-1");
    assert OctalValue("1") == 1 by { assert "1"[..0] == ""; }
  }

  /** The decimal digits of `n` as fmt.Sprintf("%d", n) writes them. */
  function DecimalString(n: int): (s: string)
    ensures |s| > 0
    ensures n < 0 <==> s[0] == '-'
    decreases if n < 0 then 1 - n else n
  {
    if n < 0 then "-" + DecimalString(-n)
    else
      var d := ['0' + ((n % 10) as char)];
      if n < 10 then d else DecimalString(n / 10) + d
  }

  predicate AllDecimal(s: string) {
    forall i :: 0 <= i < |s| ==> '0' <= s[i] <= '9'
  }

  function DecimalValue(s: string): nat
    requires AllDecimal(s)
  {
    if |s| == 0 then 0 else 10 * DecimalValue(s[..|s| - 1]) + (s[|s| - 1] as int - '0' as int)
  }

  /** The rendering of a non-negative number is its decimal digits with no
      leading zero, and reads back as the number. */
  lemma {:induction false} DecimalRoundTrip(n: nat)
    ensures AllDecimal(DecimalString(n)) && DecimalValue(DecimalString(n)) == n
    ensures DecimalString(n)[0] == '0' ==> n == 0
  {
    if n >= 10 {
      DecimalRoundTrip(n / 10);
      var s := DecimalString(n);
      assert s[..|s| - 1] == DecimalString(n / 10);
    }
  }

  /** What Update does with out_mode: a null value is left alone; a value that
      does not parse raises a warning and is kept as written; a value that
      parses is applied with chmod, which warns when it fails, and is replaced
      by its decimal rendering whether chmod failed or not. */
  datatype ModeUpdate = ModeUpdate(outMode: Option<string>, chmod: Option<FileMode>, warning: bool)

  /** `chmodFails` stands for the outcome of os.Chmod on the archive. */
  function UpdateOutMode(outMode: Option<string>, chmodFails: bool): (r: ModeUpdate)
    ensures outMode.None? ==> r == ModeUpdate(None, None, false)
    ensures outMode.Some? && ParseInt(outMode.value).err.Some? ==> r == ModeUpdate(outMode, None, true)
    ensures outMode.Some? && ParseInt(outMode.value).err.None? ==>
              var m := ParseInt(outMode.value).value;
              r.outMode == Some(DecimalString(m)) && r.chmod == Some(ToFileMode(m))
    ensures r.warning <==> outMode.Some? && (ParseInt(outMode.value).err.Some? || chmodFails)
    ensures r.chmod.Some? <==> outMode.Some? && ParseInt(outMode.value).err.None?
  {
    match outMode
    case None => ModeUpdate(None, None, false)
    case Some(s) =>
      var m := ParseInt(s);
      if m.err.Some? then ModeUpdate(outMode, None, true)
      else ModeUpdate(Some(DecimalString(m.value)), Some(ToFileMode(m.value)), chmodFails)
  }

  /** Whenever Update applies a mode, it is the mode Create would have given
      the archive for the same out_mode. */
  lemma UpdateAgreesWithCreate(s: string, chmodFails: bool)
    requires UpdateOutMode(Some(s), chmodFails).chmod.Some?
    ensures UpdateOutMode(Some(s), chmodFails).chmod.value == ModeForCreate(Some(s)).mode
    ensures !ModeForCreate(Some(s)).warning
  {
  }

  /** Writing back in decimal: an octal out_mode becomes the decimal spelling
      of the same number, which reads back as that number, not as the octal
      digits that were written. */
  lemma {:induction false} UpdateWritesDecimal(s: string, chmodFails: bool)
    requires |s| > 0 && AllOctal(s) && OctalValue(s) < Cutoff32
    ensures UpdateOutMode(Some(s), chmodFails).outMode.Some?
    ensures var w := UpdateOutMode(Some(s), chmodFails).outMode.value;
            AllDecimal(w) && DecimalValue(w) == OctalValue(s)
  {
    ParseIntAccepts(s);
    DecimalRoundTrip(OctalValue(s));
  }

  lemma Mode777Becomes511(chmodFails: bool)
    ensures UpdateOutMode(Some("777"), chmodFails) == ModeUpdate(Some("511"), Some(0x1FF), chmodFails)
  {
    ParsePrefixSnoc("", '7');
    assert "" + ['7'] == "7";
    ParsePrefixSnoc("7", '7');
    assert "7" + ['7'] == "77";
    ParsePrefixSnoc("77", '7');
    assert "77" + ['7'] == "777";
    assert ParseInt("777") == Parsed(511, None);
    assert DecimalString(5) == "5";
    assert DecimalString(51) == "51";
    assert DecimalString(511) == "511";
  }

  /** The state Update stores does not match the configuration it applied:
      a configured "777" is stored as "511", although chmod succeeded and
      Create stores the same configuration verbatim. */
  lemma DecimalStateDiffersFromPlan()
    ensures var u := UpdateOutMode(Some("777"), false);
            !u.warning && u.chmod == Some(ModeForCreate(Some("777")).mode) && u.outMode != Some("777")
  {
    Mode777Becomes511(false);
  }

  /** Update with out_mode kept as configured: the same chmod and the same
      warnings as UpdateOutMode, and the configured text left unchanged. */
  function UpdateOutModeKept(outMode: Option<string>, chmodFails: bool): (r: ModeUpdate)
    ensures r.chmod == UpdateOutMode(outMode, chmodFails).chmod
    ensures r.warning == UpdateOutMode(outMode, chmodFails).warning
    ensures r.outMode == outMode
  {
    match outMode
    case None => ModeUpdate(None, None, false)
    case Some(s) =>
      var m := ParseInt(s);
      if m.err.Some? then ModeUpdate(outMode, None, true)
      else ModeUpdate(outMode, Some(ToFileMode(m.value)), chmodFails)
  }

  /** With out_mode kept, every parsable configuration is stored as given and
      applied as the mode Create gives it; a chmod that succeeds warns of nothing. */
  lemma KeptUpdateMatchesPlan(s: string, chmodFails: bool)
    requires ParseInt(s).err.None?
    ensures UpdateOutModeKept(Some(s), chmodFails) == ModeUpdate(Some(s), Some(ModeForCreate(Some(s)).mode), chmodFails)
  {
  }

  /** The configuration of the finding: "777" is stored as "777" and applied as 0o777. */
  lemma Kept777()
    ensures UpdateOutModeKept(Some("777"), false) == ModeUpdate(Some("777"), Some(0x1FF), false)
  {
    Mode777Becomes511(false);
  }
}
