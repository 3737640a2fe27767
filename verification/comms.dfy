/** The serial command layer: assembling a command line from received
    characters, splitting it into a command word and numeric operands, and
    executing the setpoint, PID-override, dump, system and value-write
    commands against the configuration store. */
module Comms {
  import opened Ints
  import opened Layout
  import opened Config
  import opened Arith

  datatype Option<T> = None | Some(value: T)

  // ---- line assembly ---------------------------------------------------------

  /** ASCII lower-casing; every other character is left alone. */
  function ToLower(c: char): (l: char)
    ensures 'A' <= c <= 'Z' ==> l as int == c as int + 32
    ensures !('A' <= c <= 'Z') ==> l == c
  {
    if 'A' <= c <= 'Z' then (c as int + 32) as char else c
  }

  datatype Received = Received(line: string, command: Option<string>)

  /** One received character. `line` holds the characters collected since
      the last reset (the buffer up to the write index); `bufLen` is the size
      of the receive buffer. A line feed hands the line over as a command;
      a carriage return is ignored; any other character is stored lower-cased
      while there is room. A buffer filled to its last cell is dropped. */
  function ReceiveChar(line: string, ch: char, bufLen: nat): (r: Received)
    requires 2 <= bufLen && |line| < bufLen - 1
    ensures |r.line| < bufLen - 1
    ensures ToLower(ch) == '\n' <==> r.command.Some?
    ensures ToLower(ch) == '\n' ==> r.command == Some(line) && r.line == []
    ensures ToLower(ch) == '\r' ==> r.line == line && r.command == None
    ensures ToLower(ch) != '\n' && ToLower(ch) != '\r' ==>
              if |line| + 1 < bufLen - 1 then r.line == line + [ToLower(ch)] else r.line == []
  {
    var c := ToLower(ch);
    if c == '\r' then Received(line, None)
    else if c == '\n' then Received([], Some(line))
    else
      var line' := line + [c];
      Received(if |line'| >= bufLen - 1 then [] else line', None)
  }

  /** Feeds a whole string, collecting the commands in order. */
  function ReceiveString(line: string, input: string, bufLen: nat): (r: (string, seq<string>))
    requires 2 <= bufLen && |line| < bufLen - 1
    ensures |r.0| < bufLen - 1
    decreases |input|
  {
    if input == [] then (line, [])
    else
      var step := ReceiveChar(line, input[0], bufLen);
      var rest := ReceiveString(step.line, input[1..], bufLen);
      (rest.0, (if step.command.Some? then [step.command.value] else []) + rest.1)
  }

  function LowerAll(s: string): (l: string)
    ensures |l| == |s|
  {
    if s == [] then [] else [ToLower(s[0])] + LowerAll(s[1..])
  }

  /** A command typed on an empty line and ended by a line feed is handed
      over lower-cased, provided it fits the buffer and holds no line break. */
  lemma {:induction false} TypedLineIsDelivered(line: string, cmd: string, bufLen: nat)
    requires 2 <= bufLen && |line| + |cmd| < bufLen - 1
    requires forall i :: 0 <= i < |cmd| ==> ToLower(cmd[i]) != '\n' && ToLower(cmd[i]) != '\r'
    ensures ReceiveString(line, cmd + "\n", bufLen) == ([], [line + LowerAll(cmd)])
    decreases |cmd|
  {
    var input := cmd + "\n";
    if cmd == [] {
      assert input == "\n";
      assert input[1..] == [];
      assert ReceiveChar(line, '\n', bufLen) == Received([], Some(line));
      assert ReceiveString([], input[1..], bufLen) == ([], []);
      assert ReceiveString(line, input, bufLen) == ([], [line] + []);
      assert [line] + [] == [line];
      assert line + LowerAll(cmd) == line;
    } else {
      var c := ToLower(cmd[0]);
      assert input[0] == cmd[0] && input[1..] == cmd[1..] + "\n";
      var step := ReceiveChar(line, cmd[0], bufLen);
      assert step == Received(line + [c], None);
      var rest := ReceiveString(line + [c], cmd[1..] + "\n", bufLen);
      assert ReceiveString(line, input, bufLen) == (rest.0, [] + rest.1);
      assert forall i :: 0 <= i < |cmd[1..]| ==> cmd[1..][i] == cmd[i + 1];
      TypedLineIsDelivered(line + [c], cmd[1..], bufLen);
      var l := LowerAll(cmd[1..]);
      assert LowerAll(cmd) == [c] + l;
      assert (line + [c]) + l == line + ([c] + l);
      assert rest == ([], [(line + [c]) + l]);
      assert [] + rest.1 == rest.1;
    }
  }

  // ---- numbers ---------------------------------------------------------------

  predicate IsSpace(c: char)
  {
    c == ' ' || c == '\t' || c == '\n' || c == '\r' || c as int == 11 || c as int == 12
  }

  /** The value of a digit character in bases up to 36; other characters get
      a value no base accepts. */
  function DigitVal(c: char): (v: nat)
  {
    if '0' <= c <= '9' then c as int - '0' as int
    else if 'a' <= c <= 'z' then c as int - 'a' as int + 10
    else if 'A' <= c <= 'Z' then c as int - 'A' as int + 10
    else 99
  }

  predicate IsDigitIn(c: char, base: nat)
  {
    DigitVal(c) < base
  }

  /** The value of the digits `s[a..b]`, most significant digit first. */
  function Value(s: string, a: nat, b: nat, base: nat): nat
    requires a <= b <= |s|
    decreases b - a
  {
    if b == a then 0 else Value(s, a, b - 1, base) * base + DigitVal(s[b - 1])
  }

  const LongMin: int := -0x8000_0000
  const LongMax: int := 0x7FFF_FFFF

  /** A value clamped to the range of a 32-bit long. */
  function Saturate(x: int): (v: int)
    ensures LongMin <= v <= LongMax
    ensures LongMin <= x <= LongMax ==> v == x
    ensures x > LongMax ==> v == LongMax
    ensures x < LongMin ==> v == LongMin
  {
    if x > LongMax then LongMax else if x < LongMin then LongMin else x
  }

  /** Where the conversion is: skipping white space, at the optional sign,
      at the optional 0x prefix, or inside the digits with the value so far. */
  datatype Phase = Blank | Sign | Prefix(neg: bool) | Digits(neg: bool, acc: nat)

  function PhaseRank(q: Phase): nat
  {
    match q
    case Blank => 3
    case Sign => 2
    case Prefix(_) => 1
    case Digits(_, _) => 0
  }

  /** The C library's string-to-long conversion on a 32-bit long, applied to
      the text starting at index `k`: leading white space, an optional sign,
      in base 16 an optional 0x prefix, then as many digits as follow; an
      out-of-range value saturates. */
  function StrToL(s: string, k: nat, base: nat): (v: int)
    requires k <= |s| && 2 <= base <= 16
    ensures LongMin <= v <= LongMax
  {
    Convert(s, k, base, Blank)
  }

  /** One step of the conversion from index `k` in phase `q`. */
  function Convert(s: string, k: nat, base: nat, q: Phase): (v: int)
    requires k <= |s| && 2 <= base <= 16
    ensures LongMin <= v <= LongMax
    decreases |s| - k, PhaseRank(q)
  {
    match q
    case Blank =>
      if k < |s| && IsSpace(s[k]) then Convert(s, k + 1, base, Blank) else Convert(s, k, base, Sign)
    case Sign =>
      if k < |s| && s[k] == '-' then Convert(s, k + 1, base, Prefix(true))
      else if k < |s| && s[k] == '+' then Convert(s, k + 1, base, Prefix(false))
      else Convert(s, k, base, Prefix(false))
    case Prefix(neg) =>
      if base == 16 && k + 2 < |s| && s[k] == '0' && (s[k + 1] == 'x' || s[k + 1] == 'X') && IsDigitIn(s[k + 2], 16)
      then Convert(s, k + 2, base, Digits(neg, 0))
      else Convert(s, k, base, Digits(neg, 0))
    case Digits(neg, acc) =>
      if k < |s| && IsDigitIn(s[k], base) then Convert(s, k + 1, base, Digits(neg, acc * base + DigitVal(s[k])))
      else Saturate(if neg then -(acc as int) else acc)
  }

  /** The lower-case digit for a value below 16. */
  function DigitChar(d: nat): (c: char)
    requires d < 16
    ensures DigitVal(c) == d
  {
    if d < 10 then ('0' as int + d) as char else ('a' as int + d - 10) as char
  }

  /** The digits of `n` in `base`, without leading zeros. */
  function Render(n: nat, base: nat): (s: string)
    requires 2 <= base <= 16
    ensures |s| > 0
    decreases n
  {
    if n < base then [DigitChar(n)]
    else
      DivStep(n, base);
      Render(n / base, base) + [DigitChar(n % base)]
  }

  /** Division by a base of at least 2 shrinks a number at least the base,
      and quotient and remainder rebuild it. */
  lemma DivStep(n: nat, base: nat)
    requires 2 <= base <= n
    ensures 0 < n / base < n && n % base < base
    ensures (n / base) * base + n % base == n
  {
    FloorBounds(n, base);
    DivBelow(n, base, n);
  }

  lemma {:induction false} RenderDigits(n: nat, base: nat)
    requires 2 <= base <= 16
    ensures forall i :: 0 <= i < |Render(n, base)| ==> IsDigitIn(Render(n, base)[i], base)
    decreases n
  {
    if n >= base {
      DivStep(n, base);
      RenderDigits(n / base, base);
      var front := Render(n / base, base);
      assert Render(n, base) == front + [DigitChar(n % base)];
    }
  }

  /** `s` holds `r` from index `k` on. */
  predicate DigitsAt(s: string, k: nat, r: string)
  {
    k + |r| <= |s| && forall m :: 0 <= m < |r| ==> s[k + m] == r[m]
  }

  lemma {:induction false} ValueOfRender(n: nat, base: nat, s: string, k: nat)
    requires 2 <= base <= 16 && DigitsAt(s, k, Render(n, base))
    ensures Value(s, k, k + |Render(n, base)|, base) == n
    decreases n
  {
    var r := Render(n, base);
    if n < base {
      assert s[k] == r[0];
    } else {
      DivStep(n, base);
      var front := Render(n / base, base);
      assert r == front + [DigitChar(n % base)];
      assert DigitsAt(s, k, front) by {
        assert forall m :: 0 <= m < |front| ==> r[m] == front[m];
      }
      ValueOfRender(n / base, base, s, k);
      assert s[k + |r| - 1] == r[|r| - 1] == DigitChar(n % base);
    }
  }

  /** Inside the digits `s[a..e]`, which a non-digit or the end follows,
      the conversion finishes with their value. */
  lemma {:induction false} DigitsPhase(s: string, a: nat, p: nat, e: nat, base: nat, neg: bool)
    requires 2 <= base <= 16 && a <= p <= e <= |s|
    requires forall i :: p <= i < e ==> IsDigitIn(s[i], base)
    requires e == |s| || !IsDigitIn(s[e], base)
    ensures Convert(s, p, base, Digits(neg, Value(s, a, p, base)))
         == Saturate(if neg then -(Value(s, a, e, base) as int) else Value(s, a, e, base))
    decreases e - p
  {
    if p < e {
      assert Value(s, a, p + 1, base) == Value(s, a, p, base) * base + DigitVal(s[p]);
      DigitsPhase(s, a, p + 1, e, base, neg);
    }
  }

  /** Reading back a rendered number: the conversion of a number's digits,
      followed by the end of the text or by a space, gives the number. */
  lemma {:induction false} StrToLOfRender(n: nat, base: nat, s: string, k: nat)
    requires 2 <= base <= 16 && n <= LongMax
    requires DigitsAt(s, k, Render(n, base))
    requires k + |Render(n, base)| == |s| || s[k + |Render(n, base)|] == ' '
    ensures StrToL(s, k, base) == n
  {
    var r := Render(n, base);
    var e := k + |r|;
    RenderDigits(n, base);
    assert s[k] == r[0];
    assert forall i :: k <= i < e ==> IsDigitIn(s[i], base) by {
      assert forall i :: k <= i < e ==> s[i] == r[i - k];
    }
    if base == 16 && k + 2 < |s| {
      assert s[k + 1] == (if |r| >= 2 then r[1] else ' ');
    }
    // a leading digit is neither white space nor a sign, and never starts 0x
    assert !IsSpace(s[k]) && s[k] != '-' && s[k] != '+';
    assert Convert(s, k, base, Blank) == Convert(s, k, base, Sign);
    assert Convert(s, k, base, Sign) == Convert(s, k, base, Prefix(false));
    assert Convert(s, k, base, Prefix(false)) == Convert(s, k, base, Digits(false, Value(s, k, k, base)));
    DigitsPhase(s, k, k, e, base, false);
    ValueOfRender(n, base, s, k);
  }

  // ---- splitting a command -----------------------------------------------------

  /** First index at or after `i` and below `len` holding a space (or, with
      `orEquals`, an equals sign); `len` if there is none. */
  function ScanTo(s: string, i: nat, len: nat, orEquals: bool): (j: nat)
    requires i <= len <= |s|
    ensures i <= j <= len
    ensures forall k :: i <= k < j ==> s[k] != ' ' && (orEquals ==> s[k] != '=')
    ensures j < len ==> s[j] == ' ' || (orEquals && s[j] == '=')
    decreases len - i
  {
    if i < len && s[i] != ' ' && !(orEquals && s[i] == '=') then ScanTo(s, i + 1, len, orEquals) else i
  }

  datatype Split = Split(count: uint8, word: string, d1: uint16, d2: uint16)

  /** The length of the C string in `s`: the characters before the first
      '\0' (all of `s` if it holds none). */
  function CLength(s: string, i: nat): (n: nat)
    requires i <= |s|
    ensures i <= n <= |s|
    ensures forall k :: i <= k < n ==> s[k] != '\0'
    ensures n < |s| ==> s[n] == '\0'
    decreases |s| - i
  {
    if i < |s| && s[i] != '\0' then CLength(s, i + 1) else i
  }

  /** `strlen` of the line, kept in a byte as the firmware keeps it: the
      characters it counts hold no '\0', and a line of fewer than 256
      characters without one is counted whole. */
  function StrLen(s: string): (n: nat)
    ensures n <= |s| && n < 256
    ensures forall k :: 0 <= k < n ==> s[k] != '\0'
    ensures n == ToUint8(CLength(s, 0))
  {
    ToUint8(CLength(s, 0))
  }

  /** A line with no '\0' and fewer than 256 characters is counted whole. */
  lemma WholeLine(s: string)
    requires |s| < 256 && forall k :: 0 <= k < |s| ==> s[k] != '\0'
    ensures StrLen(s) == |s|
  {
  }

  /** Splits the C string in `s` into a command word and up to two operands:
      `word=decimal`, or `word hex` and `word hex hex`. The scan ends at the
      string's length, taken as a byte; a NUL therefore ends the command. */
  function ProcessString(s: string): (r: Split)
    ensures 1 <= r.count <= 3
    ensures r.count == 1 <==> forall k :: 0 <= k < StrLen(s) ==> s[k] != ' ' && s[k] != '='
    ensures r.count == 1 ==> r.word == s[..StrLen(s)] && r.d1 == 0 && r.d2 == 0
    ensures r.count > 1 ==>
              && |r.word| < StrLen(s) && r.word == s[..|r.word|]
              && (s[|r.word|] == ' ' || s[|r.word|] == '=')
              && (forall k :: 0 <= k < |r.word| ==> s[k] != ' ' && s[k] != '=')
    ensures r.count > 1 && s[|r.word|] == '=' ==> r.count == 2 && r.d2 == 0
    ensures r.count == 3 ==> s[|r.word|] == ' '
  {
    var len := StrLen(s);
    var i := ScanTo(s, 0, len, true);
    var word := s[..i];
    if i >= len then Split(1, word, 0, 0)
    else if s[i] == '=' then Split(2, word, ToUint16(StrToL(s, i + 1, 10)), 0)
    else
      var d1 := ToUint16(StrToL(s, i + 1, 16));
      var j := ScanTo(s, i + 1, len, false);
      if j >= len then Split(2, word, d1, 0)
      else Split(3, word, d1, ToUint16(StrToL(s, j + 1, 16)))
  }

  /** A command word as the splitter finds it: no separator and no NUL. */
  predicate IsWord(w: string)
  {
    forall k :: 0 <= k < |w| ==> w[k] != ' ' && w[k] != '=' && w[k] != '\0'
  }

  /** The scan stops at the first separator. */
  lemma {:induction false} ScanFinds(s: string, i: nat, len: nat, j: nat, orEquals: bool)
    requires i <= j < len <= |s|
    requires forall k :: i <= k < j ==> s[k] != ' ' && (orEquals ==> s[k] != '=')
    requires s[j] == ' ' || (orEquals && s[j] == '=')
    ensures ScanTo(s, i, len, orEquals) == j
    decreases j - i
  {
    if i < j {
      ScanFinds(s, i + 1, len, j, orEquals);
    }
  }

  /** The pieces of `w + [c] + t`: the word, the separator at `|w|`, and `t`
      from `|w| + 1` on. */
  lemma {:induction false} Pieces(w: string, c: char, t: string)
    ensures var s := w + [c] + t;
      && |s| == |w| + 1 + |t| && s[|w|] == c && s[..|w|] == w
      && (forall k :: 0 <= k < |w| ==> s[k] == w[k])
      && (forall m :: 0 <= m < |t| ==> s[|w| + 1 + m] == t[m])
  {
    var s := w + [c] + t;
    assert s[..|w|] == w;
  }

  /** `word=n` splits into the word and n. */
  lemma {:induction false} DecimalOperandRoundTrip(w: string, n: nat)
    requires IsWord(w) && n <= LongMax
    requires |w + "=" + Render(n, 10)| < 256
    ensures ProcessString(w + "=" + Render(n, 10)) == Split(2, w, ToUint16(n), 0)
  {
    var r := Render(n, 10);
    var s := w + "=" + r;
    assert "=" == ['='];
    Pieces(w, '=', r);
    DecimalWhole(w, n);
    assert ScanTo(s, 0, |s|, true) == |w| by {
      ScanFinds(s, 0, |s|, |w|, true);
    }
    assert StrToL(s, |w| + 1, 10) == n by {
      StrToLOfRender(n, 10, s, |w| + 1);
    }
  }

  /** The line `word=n` holds no NUL, so it is counted whole. */
  lemma DecimalWhole(w: string, n: nat)
    requires IsWord(w) && |w + "=" + Render(n, 10)| < 256
    ensures StrLen(w + "=" + Render(n, 10)) == |w + "=" + Render(n, 10)|
  {
    var r := Render(n, 10);
    var s := w + "=" + r;
    RenderDigits(n, 10);
    forall k | 0 <= k < |s| ensures s[k] != '\0' {
      if k < |w| { assert s[k] == w[k]; }
      else if k > |w| { assert s[k] == r[k - |w| - 1]; }
    }
    WholeLine(s);
  }

  /** How a line with two spaces splits, in terms of where they are. */
  lemma {:induction false} ProcessTwoSpaces(s: string, i: nat, j: nat)
    requires StrLen(s) == |s| && i < j < |s|
    requires ScanTo(s, 0, |s|, true) == i && s[i] == ' ' && ScanTo(s, i + 1, |s|, false) == j
    ensures ProcessString(s) == Split(3, s[..i], ToUint16(StrToL(s, i + 1, 16)), ToUint16(StrToL(s, j + 1, 16)))
  {
  }

  /** A line `word a b`, described by where its pieces are: the word
      before `i`, the digits of `a` between the two spaces at `i` and `j`,
      and the digits of `b` up to the end. */
  lemma {:induction false} TwoOperands(s: string, i: nat, j: nat, a: nat, b: nat)
    requires |s| < 256 && a <= LongMax && b <= LongMax && i < |s|
    requires forall k :: 0 <= k < i ==> s[k] != ' ' && s[k] != '=' && s[k] != '\0'
    requires s[i] == ' ' && DigitsAt(s, i + 1, Render(a, 16)) && j == i + 1 + |Render(a, 16)|
    requires j < |s| && s[j] == ' ' && DigitsAt(s, j + 1, Render(b, 16)) && j + 1 + |Render(b, 16)| == |s|
    ensures ProcessString(s) == Split(3, s[..i], ToUint16(a), ToUint16(b))
  {
    TwoOperandsWhole(s, i, j, a, b);
    assert ScanTo(s, 0, |s|, true) == i by {
      ScanFinds(s, 0, |s|, i, true);
    }
    assert ScanTo(s, i + 1, |s|, false) == j by {
      var ra := Render(a, 16);
      RenderDigits(a, 16);
      assert forall k :: i + 1 <= k < j ==> s[k] == ra[k - i - 1];
      ScanFinds(s, i + 1, |s|, j, false);
    }
    assert StrToL(s, i + 1, 16) == a by {
      StrToLOfRender(a, 16, s, i + 1);
    }
    assert StrToL(s, j + 1, 16) == b by {
      StrToLOfRender(b, 16, s, j + 1);
    }
    ProcessTwoSpaces(s, i, j);
  }

  /** The line `word a b` holds no NUL, so it is counted whole. */
  lemma TwoOperandsWhole(s: string, i: nat, j: nat, a: nat, b: nat)
    requires |s| < 256 && i < |s|
    requires forall k :: 0 <= k < i ==> s[k] != '\0'
    requires s[i] == ' ' && DigitsAt(s, i + 1, Render(a, 16)) && j == i + 1 + |Render(a, 16)|
    requires j < |s| && s[j] == ' ' && DigitsAt(s, j + 1, Render(b, 16)) && j + 1 + |Render(b, 16)| == |s|
    ensures StrLen(s) == |s|
  {
    var ra, rb := Render(a, 16), Render(b, 16);
    RenderDigits(a, 16);
    RenderDigits(b, 16);
    forall k | 0 <= k < |s| ensures s[k] != '\0' {
      if i < k < j { assert s[k] == ra[k - i - 1]; }
      else if j < k { assert s[k] == rb[k - j - 1]; }
    }
    WholeLine(s);
  }

  /** `word a b` with hex operands splits into the word, a and b. */
  lemma {:induction false} HexOperandsRoundTrip(w: string, a: nat, b: nat)
    requires IsWord(w) && a <= LongMax && b <= LongMax
    requires |w + " " + (Render(a, 16) + " " + Render(b, 16))| < 256
    ensures ProcessString(w + " " + (Render(a, 16) + " " + Render(b, 16))) == Split(3, w, ToUint16(a), ToUint16(b))
  {
    var ra := Render(a, 16);
    var rb := Render(b, 16);
    var t := ra + " " + rb;
    var s := w + " " + t;
    assert " " == [' '];
    Pieces(w, ' ', t);
    Pieces(ra, ' ', rb);
    TwoOperands(s, |w|, |w| + 1 + |ra|, a, b);
  }

  // ---- executing a command -------------------------------------------------------

  datatype Status = NoErr | ErrCmd | ErrNum

  /** What a command sends back, with the text formatting abstracted away. */
  datatype Reply =
    | Silent
    | SetpointEcho(setpoint: int16)
    | PidEcho(fixed: int16)
    | Block(first: uint8, words: seq<uint16>)
    | SystemInfo(which: uint8)
    | RawMemory

  /** The variables the commands read and write. */
  datatype Host = Host(setpoint: int16, pidSwitch: bool, pidFixed: int16, store: Store)

  datatype Outcome = Outcome(status: Status, host: Host, reply: Reply)

  /** The character at `i` of the zero-terminated line. */
  function CharAt(s: string, i: nat): char
  {
    if i < |s| then s[i] else '\0'
  }

  predicate IsAlpha(c: char)
  {
    'a' <= c <= 'z' || 'A' <= c <= 'Z'
  }

  /** The number after the first character, as atoi gives it, kept as a byte. */
  function CommandNumber(s: string): uint8
  {
    ToUint8(StrToL(s, if |s| > 0 then 1 else 0, 10))
  }

  /** The words of profile `num` (19) or of the parameter menu (23), each
      read as the `uint16_t` the dump loop holds it in. */
  function EepBlock(num: uint8, store: Store): (words: seq<uint16>)
    requires ValidStore(store) && num <= MenuItemNo
    ensures |words| == ItemCount(num)
    ensures forall i :: 0 <= i < |words| ==> words[i] == ToUint16(Read(store, (num as int * ProfileSize + i) as uint8))
  {
    MenuAddresses(SP, num, 0);
    seq<uint16>(ItemCount(num), i requires 0 <= i < ItemCount(num) =>
      ToUint16(Read(store, (num as int * ProfileSize + i) as uint8)))
  }

  /** Executes one command line, the text up to the line feed. The command
      letters and the number after the first one are read from the buffer as
      it is; the splitting stops at the first NUL. A second letter marks a two-letter command
      (sp, pid, and the raw memory access rb/rw/wb/ww); otherwise the first
      letter selects p (dump), s (system) or v (write a store word). */
  function ExecuteCommand(s: string, h: Host): (o: Outcome)
    requires ValidStore(h.store)
    ensures ValidStore(o.host.store)
    // two-letter commands never report an error
    ensures IsAlpha(CharAt(s, 1)) ==> o.status == NoErr
    ensures IsAlpha(CharAt(s, 1)) && ProcessString(s).word == "sp" ==>
              var sp := ProcessString(s);
              && o.host.setpoint == (if sp.count > 1 then ToInt16(sp.d1) else h.setpoint)
              && o.host.store == (if sp.count > 1 then Write(h.store, Addr(SP), ToInt16(sp.d1)) else h.store)
              && o.reply == SetpointEcho(o.host.setpoint)
    ensures IsAlpha(CharAt(s, 1)) && ProcessString(s).word == "pid" ==>
              var sp := ProcessString(s);
              && o.host.store == h.store && o.reply == PidEcho(o.host.pidFixed)
              && (sp.count > 1 && sp.d1 > 1000 ==> !o.host.pidSwitch && o.host.pidFixed == 0)
              && (sp.count > 1 && sp.d1 <= 1000 ==> o.host.pidSwitch && o.host.pidFixed == sp.d1)
              && (sp.count <= 1 ==> o.host == h)
    // an unknown two-letter word is accepted and does nothing
    ensures IsAlpha(CharAt(s, 1)) && ProcessString(s).word !in {"sp", "pid", "rb", "rw", "wb", "ww"} ==>
              o.host == h && o.reply == Silent
    ensures !IsAlpha(CharAt(s, 1)) && CharAt(s, 0) == 'p' ==>
              o.status == NoErr && o.host == h
              && (CommandNumber(s) <= MenuItemNo ==> o.reply == Block(CommandNumber(s), EepBlock(CommandNumber(s), h.store)))
              && (CommandNumber(s) > MenuItemNo ==> o.reply == Silent)
    ensures !IsAlpha(CharAt(s, 1)) && CharAt(s, 0) == 's' ==>
              o.host == h && (o.status == ErrNum <==> CommandNumber(s) > 3)
              && o.reply == (if CommandNumber(s) <= 3 then SystemInfo(CommandNumber(s)) else Silent)
    // v writes the word at the byte address without any range check
    ensures !IsAlpha(CharAt(s, 1)) && CharAt(s, 0) == 'v' ==>
              o.status == NoErr && o.reply == Silent
              && o.host == h.(store := if ProcessString(s).count > 1
                                       then Write(h.store, CommandNumber(s), ToInt16(ProcessString(s).d1))
                                       else h.store)
    // raw memory access is routed but leaves the modelled variables alone
    ensures IsAlpha(CharAt(s, 1)) && ProcessString(s).word in {"rb", "rw", "wb", "ww"} ==>
              o.host == h && o.reply == RawMemory
    ensures !IsAlpha(CharAt(s, 1)) && CharAt(s, 0) !in {'p', 's', 'v'} ==> o.status == ErrCmd && o.host == h
    // only sp and v change the store
    ensures o.host.store != h.store ==>
              (IsAlpha(CharAt(s, 1)) && ProcessString(s).word == "sp") || (!IsAlpha(CharAt(s, 1)) && CharAt(s, 0) == 'v')
  {
    var num := CommandNumber(s);
    if IsAlpha(CharAt(s, 1)) then
      var sp := ProcessString(s);
      if sp.word == "sp" then
        if sp.count > 1 then
          var v := ToInt16(sp.d1);
          Outcome(NoErr, h.(setpoint := v, store := Write(h.store, Addr(SP), v)), SetpointEcho(v))
        else Outcome(NoErr, h, SetpointEcho(h.setpoint))
      else if sp.word == "pid" then
        if sp.count > 1 then
          if sp.d1 > 1000 then Outcome(NoErr, h.(pidFixed := 0, pidSwitch := false), PidEcho(0))
          else Outcome(NoErr, h.(pidFixed := sp.d1 as int16, pidSwitch := true), PidEcho(sp.d1 as int16))
        else Outcome(NoErr, h, PidEcho(h.pidFixed))
      else if sp.word in {"rb", "rw", "wb", "ww"} then Outcome(NoErr, h, RawMemory)
      else Outcome(NoErr, h, Silent)
    else
      match CharAt(s, 0)
      case 'p' =>
        if num <= MenuItemNo then Outcome(NoErr, h, Block(num, EepBlock(num, h.store)))
        else Outcome(NoErr, h, Silent)
      case 's' =>
        if num <= 3 then Outcome(NoErr, h, SystemInfo(num)) else Outcome(ErrNum, h, Silent)
      case 'v' =>
        var sp := ProcessString(s);
        if sp.count > 1 then Outcome(NoErr, h.(store := Write(h.store, num, ToInt16(sp.d1))), Silent)
        else Outcome(NoErr, h, Silent)
      case _ => Outcome(ErrCmd, h, Silent)
  }

  /** A NUL ends the command: `v5` followed by a NUL and `=7` is the
      one-item command `v5`, so nothing is written. */
  lemma NulEndsCommand(h: Host)
    requires ValidStore(h.store)
    ensures ProcessString("v5\0=7").count == 1
    ensures ExecuteCommand("v5\0=7", h) == Outcome(NoErr, h, Silent)
  {
    var s := "v5\0=7";
    assert CLength(s, 0) == 2 by {
      assert s[0] != '\0' && s[1] != '\0' && s[2] == '\0';
      assert CLength(s, 2) == 2;
      assert CLength(s, 1) == CLength(s, 2);
    }
    assert ScanTo(s, 0, 2, true) == 2 by {
      assert ScanTo(s, 2, 2, true) == 2;
      assert ScanTo(s, 1, 2, true) == 2;
    }
  }

  /** Setting the setpoint over the line and asking for it again: `sp=n`
      stores n in SP and the cached setpoint, and `sp` then echoes n. */
  lemma {:induction false} SetpointRoundTrip(n: nat, h: Host)
    requires ValidStore(h.store) && n < 0x8000
    ensures var o := ExecuteCommand("sp=" + Render(n, 10), h);
      && o.status == NoErr
      && ReadParam(o.host.store, SP) == n && o.host.setpoint == n
      && ExecuteCommand("sp", o.host).reply == SetpointEcho(n as int16)
  {
    var s := "sp=" + Render(n, 10);
    assert "sp=" == "sp" + "=";
    assert |Render(n, 10)| <= 5 by { RenderLength(n, 5); }
    DecimalOperandRoundTrip("sp", n);
    assert CharAt(s, 1) == 'p';
    assert ProcessString("sp") == Split(1, "sp", 0, 0) by {
      assert "sp"[..|"sp"| % 256] == "sp";
    }
  }

  function Pow10(k: nat): (p: nat)
    ensures p >= 1
  {
    if k == 0 then 1 else 10 * Pow10(k - 1)
  }

  /** A number below 10^k has at most k decimal digits. */
  lemma {:induction false} RenderLength(n: nat, k: nat)
    requires 1 <= k && n < Pow10(k)
    ensures |Render(n, 10)| <= k
    decreases k
  {
    if n >= 10 {
      assert k >= 2;
      DivBelow(n, 10, Pow10(k - 1));
      RenderLength(n / 10, k - 1);
      assert Render(n, 10) == Render(n / 10, 10) + [DigitChar(n % 10)];
    }
  }

  /** Overriding the PID output over the line: `pid=n` with n at most 1000
      fixes the output at n; a larger n hands control back to the PID. */
  lemma {:induction false} PidOverride(n: nat, h: Host)
    requires ValidStore(h.store) && n < 0x8000
    ensures var o := ExecuteCommand("pid=" + Render(n, 10), h);
      && o.host.store == h.store
      && (n <= 1000 ==> o.host.pidSwitch && o.host.pidFixed == n)
      && (n > 1000 ==> !o.host.pidSwitch && o.host.pidFixed == 0)
  {
    var s := "pid=" + Render(n, 10);
    assert "pid=" == "pid" + "=";
    assert |Render(n, 10)| <= 5 by { RenderLength(n, 5); }
    DecimalOperandRoundTrip("pid", n);
    assert CharAt(s, 1) == 'i';
  }
}
