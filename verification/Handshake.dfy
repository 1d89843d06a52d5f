/** The startup handshake: the sidecar prints its port (app/api/entrypoint.py) and the supervisor
    parses the line (sidecar-core/src/startup.rs). */
module Handshake {
  import opened Basics
  import opened Decimal

  datatype StartupError = HandshakeFailure | InvalidStartupOutput

  datatype Parsed = Port(port: nat) | Rejected(error: StartupError)

  const MAX_PORT: nat := 65535
  const MAX_U32: nat := U32 - 1

  // ------------------------------------------------------------------ trimming

  /** The White_Space characters of Unicode, which Rust trims. */
  predicate IsSpace(c: char)
  {
    || '\t' <= c <= '\r' || c == ' ' || c == '\U{85}' || c == '\U{A0}' || c == '\U{1680}'
    || '\U{2000}' <= c <= '\U{200A}' || c == '\U{2028}' || c == '\U{2029}' || c == '\U{202F}'
    || c == '\U{205F}' || c == '\U{3000}'
  }

  predicate AllSpace(s: string)
  {
    forall i :: 0 <= i < |s| ==> IsSpace(s[i])
  }

  function TrimStart(s: string): string
  {
    if s != [] && IsSpace(s[0]) then TrimStart(s[1..]) else s
  }

  function TrimEnd(s: string): string
  {
    if s != [] && IsSpace(s[|s| - 1]) then TrimEnd(s[..|s| - 1]) else s
  }

  function Trim(s: string): string { TrimEnd(TrimStart(s)) }

  /** Neither end of the text is white space. */
  predicate Bare(s: string)
  {
    s == [] || (!IsSpace(s[0]) && !IsSpace(s[|s| - 1]))
  }

  lemma {:induction false} TrimStartOf(a: string, t: string)
    requires AllSpace(a) && (t == [] || !IsSpace(t[0]))
    ensures TrimStart(a + t) == t
  {
    if a == [] {
      assert a + t == t;
    } else {
      assert (a + t)[1..] == a[1..] + t;
      TrimStartOf(a[1..], t);
    }
  }

  lemma {:induction false} TrimEndOf(t: string, b: string)
    requires AllSpace(b) && (t == [] || !IsSpace(t[|t| - 1]))
    ensures TrimEnd(t + b) == t
  {
    if b == [] {
      assert t + b == t;
    } else {
      assert (t + b)[..|t + b| - 1] == t + b[..|b| - 1];
      TrimEndOf(t, b[..|b| - 1]);
    }
  }

  /** Trimming undoes any padding with white space. */
  lemma TrimOf(a: string, t: string, b: string)
    requires AllSpace(a) && AllSpace(b) && Bare(t)
    ensures Trim(a + t + b) == t
  {
    if t == [] {
      assert a + t + b == (a + b) + [];
      TrimStartOf(a + b, []);
    } else {
      assert a + t + b == a + (t + b) && (t + b)[0] == t[0];
      TrimStartOf(a, t + b);
      TrimEndOf(t, b);
    }
  }

  lemma {:induction false} TrimStartParts(s: string) returns (a: string)
    ensures AllSpace(a) && s == a + TrimStart(s)
    ensures TrimStart(s) == [] || !IsSpace(TrimStart(s)[0])
  {
    a := [];
    if s != [] && IsSpace(s[0]) {
      a := TrimStartParts(s[1..]);
      a := [s[0]] + a;
    }
  }

  lemma {:induction false} TrimEndParts(s: string) returns (b: string)
    ensures AllSpace(b) && s == TrimEnd(s) + b
    ensures TrimEnd(s) == [] || !IsSpace(TrimEnd(s)[|TrimEnd(s)| - 1])
    ensures TrimEnd(s) == [] || TrimEnd(s)[0] == s[0]
  {
    b := [];
    if s != [] && IsSpace(s[|s| - 1]) {
      b := TrimEndParts(s[..|s| - 1]);
      b := b + [s[|s| - 1]];
    }
  }

  /** Every line is its trimmed text padded with white space. */
  lemma TrimParts(s: string) returns (a: string, b: string)
    ensures AllSpace(a) && AllSpace(b) && Bare(Trim(s)) && s == a + Trim(s) + b
  {
    a := TrimStartParts(s);
    b := TrimEndParts(TrimStart(s));
  }

  // ------------------------------------------------------------------ parsing a 32-bit number

  /** Digit by digit from the left; fails on a character that is no digit and on overflow. */
  function ParseDigits(acc: nat, s: string): Option<nat>
    decreases |s|
  {
    if s == [] then Some(acc)
    else if acc * 10 > MAX_U32 || !IsDigit(s[0]) || acc * 10 + DigitValue(s[0]) > MAX_U32 then None
    else ParseDigits(acc * 10 + DigitValue(s[0]), s[1..])
  }

  /** Rust's `u32` parser: one leading plus is allowed, but not alone. */
  function ParseU32(s: string): Option<nat>
  {
    if s == [] || s == "+" then None
    else if s[0] == '+' then ParseDigits(0, s[1..])
    else ParseDigits(0, s)
  }

  /** Text that writes `n` in decimal, leading zeros and one leading plus included. */
  ghost predicate Writes(s: string, n: nat)
  {
    var digits := if s != [] && s[0] == '+' then s[1..] else s;
    digits != [] && AllDigits(digits) && Value(digits) == n
  }

  /** Parsing continues the number already read, or fails as soon as that is impossible. */
  lemma {:induction false} ParseDigitsIs(acc: nat, s: string)
    requires acc <= MAX_U32
    ensures ParseDigits(acc, s) ==
            if AllDigits(s) && acc * Pow10(|s|) + Value(s) <= MAX_U32 then Some(acc * Pow10(|s|) + Value(s)) else None
    decreases |s|
  {
    if s != [] && IsDigit(s[0]) {
      var d := DigitValue(s[0]);
      if AllDigits(s) {
        ValueFromLeft(s);
        Distribute(acc, d, Pow10(|s| - 1));
      }
      if acc * 10 + d <= MAX_U32 {
        ParseDigitsIs(acc * 10 + d, s[1..]);
        assert s == [s[0]] + s[1..];
        assert AllDigits(s) <==> AllDigits(s[1..]);
      } else if AllDigits(s) {
        AtLeast(acc * 10 + d, Pow10(|s| - 1));
      }
    }
  }

  lemma Distribute(acc: nat, d: nat, p: nat)
    ensures (acc * 10 + d) * p == acc * (10 * p) + d * p
  {
  }

  lemma AtLeast(n: nat, p: nat)
    requires p >= 1
    ensures n * p >= n
  {
  }

  lemma {:induction false} ValueFromLeft(s: string)
    requires s != [] && AllDigits(s)
    ensures Value(s) == DigitValue(s[0]) * Pow10(|s| - 1) + Value(s[1..])
  {
    if |s| > 1 {
      ValueFromLeft(s[..|s| - 1]);
      assert s[1..][..|s[1..]| - 1] == s[..|s| - 1][1..];
    }
  }

  /** The parser accepts exactly the numerals below 2^32, with their value. */
  lemma ParseU32Is(s: string, n: nat)
    ensures ParseU32(s) == Some(n) <==> Writes(s, n) && n <= MAX_U32
    ensures ParseU32(s) == None <==> forall k: nat :: Writes(s, k) ==> k > MAX_U32
  {
    var digits := if s != [] && s[0] == '+' then s[1..] else s;
    ParseDigitsIs(0, digits);
    if digits != [] && AllDigits(digits) {
      assert Writes(s, Value(digits));
    }
  }

  // ------------------------------------------------------------------ the handshake line

  function ParseHandshakeLine(line: string): Parsed
  {
    var trimmed := Trim(line);
    if trimmed == [] then Rejected(HandshakeFailure)
    else match ParseU32(trimmed)
      case None => Rejected(HandshakeFailure)
      case Some(n) => if n == 0 || n > MAX_PORT then Rejected(InvalidStartupOutput) else Port(n)
  }

  /** Exactly which lines are accepted and how the others are classified. */
  lemma HandshakeDecides(line: string, n: nat)
    ensures ParseHandshakeLine(line) == Port(n) <==> Writes(Trim(line), n) && 1 <= n <= MAX_PORT
    ensures ParseHandshakeLine(line) == Rejected(InvalidStartupOutput) <==>
            exists k: nat :: Writes(Trim(line), k) && (k == 0 || MAX_PORT < k <= MAX_U32)
    ensures ParseHandshakeLine(line) == Rejected(HandshakeFailure) <==>
            forall k: nat :: Writes(Trim(line), k) ==> k > MAX_U32
  {
    ParseU32Is(Trim(line), n);
    match ParseU32(Trim(line))
    case None =>
    case Some(m) =>
      ParseU32Is(Trim(line), m);
  }

  /** `print(port)`: the shortest decimal numeral and a line feed. */
  function PrintedLine(port: nat): string
  {
    (if port == 0 then "0" else Padded(port, 0)) + "\n"
  }

  /** Whatever white space comes around the printed port, the parser gives the port back. */
  lemma PrintedPortParses(port: nat, a: string, b: string)
    requires 1 <= port <= MAX_PORT && AllSpace(a) && AllSpace(b)
    ensures ParseHandshakeLine(a + PrintedLine(port) + b) == Port(port)
    ensures ParseHandshakeLine(PrintedLine(port)) == Port(port)
  {
    var digits := Padded(port, 0);
    ValueOfPadded(port, 0);
    assert digits != [] && Bare(digits) && digits[0] != '+';
    assert Writes(digits, port);
    TrimOf(a, digits, "\n" + b);
    assert a + PrintedLine(port) + b == a + digits + ("\n" + b);
    HandshakeDecides(a + PrintedLine(port) + b, port);
    TrimOf([], digits, "\n");
    assert PrintedLine(port) == [] + digits + "\n";
    HandshakeDecides(PrintedLine(port), port);
  }
}
