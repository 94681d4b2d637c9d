/**
 What a JSON round trip does to Go strings and to int64 numbers.

 A Go string is a sequence of bytes; in this project every `char` of a string stands for one
 byte. `json.Marshal` replaces each byte that does not begin a well-formed UTF-8 sequence by
 U+FFFD, and `json.Unmarshal` into `map[string]any` turns every number into a float64.
 */
module JsonText {

  predicate Continuation(c: char) {
    0x80 <= c as int <= 0xBF
  }

  /** Length of the well-formed UTF-8 sequence at the start of `s`, or 0 when there is none. */
  function RuneLen(s: string): (n: nat)
    requires s != ""
    ensures n <= 4 && n <= |s|
  {
    var b := s[0] as int;
    if b < 0x80 then 1
    else if 0xC2 <= b <= 0xDF then
      if 2 <= |s| && Continuation(s[1]) then 2 else 0
    else if 0xE0 <= b <= 0xEF then
      if 3 <= |s| && Continuation(s[1]) && Continuation(s[2])
         && (b == 0xE0 ==> 0xA0 <= s[1] as int) && (b == 0xED ==> s[1] as int <= 0x9F) then 3 else 0
    else if 0xF0 <= b <= 0xF4 then
      if 4 <= |s| && Continuation(s[1]) && Continuation(s[2]) && Continuation(s[3])
         && (b == 0xF0 ==> 0x90 <= s[1] as int) && (b == 0xF4 ==> s[1] as int <= 0x8F) then 4 else 0
    else 0
  }

  /** A Unicode code point other than the surrogates. */
  predicate Scalar(cp: int) {
    0 <= cp <= 0x10FFFF && !(0xD800 <= cp <= 0xDFFF)
  }

  /** The UTF-8 bytes of a code point (section 3 of RFC 3629). */
  function EncodeRune(cp: int): string
    requires Scalar(cp)
  {
    if cp < 0x80 then [cp as char]
    else if cp < 0x800 then [(0xC0 + cp / 0x40) as char, Tail(cp)]
    else if cp < 0x10000 then [(0xE0 + cp / 0x1000) as char, Tail(cp / 0x40), Tail(cp)]
    else [(0xF0 + cp / 0x40000) as char, Tail(cp / 0x1000), Tail(cp / 0x40), Tail(cp)]
  }

  function Tail(n: nat): char {
    (0x80 + n % 0x40) as char
  }

  lemma ThreeDigits(a: nat, b: nat, c: nat)
    requires b < 0x40 && c < 0x40
    ensures var n := a * 0x1000 + b * 0x40 + c;
            n / 0x1000 == a && n / 0x40 % 0x40 == b && n % 0x40 == c
  {
  }

  lemma FourDigits(a: nat, b: nat, c: nat, d: nat)
    requires b < 0x40 && c < 0x40 && d < 0x40
    ensures var n := a * 0x40000 + b * 0x1000 + c * 0x40 + d;
            n / 0x40000 == a && n / 0x1000 % 0x40 == b && n / 0x40 % 0x40 == c && n % 0x40 == d
  {
    var m := a * 0x1000 + b * 0x40 + c;
    ThreeDigits(a, b, c);
    var n := m * 0x40 + d;
    assert n / 0x40 == m && n % 0x40 == d;
    assert n / 0x1000 == m / 0x40 && n / 0x40000 == m / 0x1000;
  }

  /** What is recognised at the front is a code point's encoding, */
  lemma RecognisedIsEncoded(s: string) returns (cp: int)
    requires s != "" && RuneLen(s) > 0
    ensures Scalar(cp) && EncodeRune(cp) == s[..RuneLen(s)]
  {
    var n := RuneLen(s);
    if n == 1 {
      cp := s[0] as int;
    } else if n == 2 {
      cp := (s[0] as int - 0xC0) * 0x40 + (s[1] as int - 0x80);
    } else if n == 3 {
      cp := RecognisedThree(s);
    } else {
      cp := RecognisedFour(s);
    }
  }

  lemma RecognisedThree(s: string) returns (cp: int)
    requires s != "" && RuneLen(s) == 3
    ensures Scalar(cp) && EncodeRune(cp) == s[..3]
  {
    var a, b, c := s[0] as int - 0xE0, s[1] as int - 0x80, s[2] as int - 0x80;
    ThreeDigits(a, b, c);
    cp := a * 0x1000 + b * 0x40 + c;
    assert 0x800 <= cp < 0x10000;
    assert s[..3] == [s[0], s[1], s[2]];
  }

  lemma RecognisedFour(s: string) returns (cp: int)
    requires s != "" && RuneLen(s) == 4
    ensures Scalar(cp) && EncodeRune(cp) == s[..4]
  {
    var a, b, c, d := s[0] as int - 0xF0, s[1] as int - 0x80, s[2] as int - 0x80, s[3] as int - 0x80;
    FourDigits(a, b, c, d);
    cp := a * 0x40000 + b * 0x1000 + c * 0x40 + d;
    assert 0x10000 <= cp <= 0x10FFFF;
    assert s[..4] == [s[0], s[1], s[2], s[3]];
  }

  /** and every encoding is recognised. */
  lemma EncodedIsRecognised(cp: int, s: string)
    requires Scalar(cp) && EncodeRune(cp) <= s
    ensures s != "" && RuneLen(s) == |EncodeRune(cp)|
  {
    var e := EncodeRune(cp);
    assert forall i :: 0 <= i < |e| ==> s[i] == e[i];
  }

  predicate ValidUtf8(s: string)
    decreases |s|
  {
    s == "" || (RuneLen(s) > 0 && ValidUtf8(s[RuneLen(s)..]))
  }

  /** U+FFFD as UTF-8 bytes. */
  const REPLACEMENT: string := "\U{EF}\U{BF}\U{BD}"

  /** The string a reader of the marshalled JSON gets back. */
  function Coerce(s: string): string
    decreases |s|
  {
    if s == "" then ""
    else if RuneLen(s) == 0 then REPLACEMENT + Coerce(s[1..])
    else s[..RuneLen(s)] + Coerce(s[RuneLen(s)..])
  }

  lemma {:induction false} CoerceLength(s: string)
    ensures |Coerce(s)| >= |s|
    ensures |Coerce(s)| == |s| <==> ValidUtf8(s)
    ensures ValidUtf8(s) ==> Coerce(s) == s
    decreases |s|
  {
    if s == "" {
    } else if RuneLen(s) == 0 {
      CoerceLength(s[1..]);
    } else {
      CoerceLength(s[RuneLen(s)..]);
    }
  }

  /** A string survives the JSON round trip exactly when it is valid UTF-8. */
  lemma CoerceIdentityIff(s: string)
    ensures Coerce(s) == s <==> ValidUtf8(s)
  {
    CoerceLength(s);
  }

  /** Marshalling always produces valid UTF-8, so a second round trip changes nothing. */
  lemma {:induction false} CoerceIsValid(s: string)
    ensures ValidUtf8(Coerce(s))
    decreases |s|
  {
    if s == "" {
    } else if RuneLen(s) == 0 {
      CoerceIsValid(s[1..]);
      var r := Coerce(s);
      assert r[3..] == Coerce(s[1..]);
      assert r[0] as int == 0xEF && r[1] as int == 0xBF && r[2] as int == 0xBD;
    } else {
      var n := RuneLen(s);
      CoerceIsValid(s[n..]);
      var r := Coerce(s);
      assert r[n..] == Coerce(s[n..]);
      assert forall i :: 0 <= i < n ==> r[i] == s[i];
    }
  }

  // ---------------------------------------------------------------- numbers

  /** 2^53: every integer up to here is a float64. */
  const EXACT: int := 0x20_0000_0000_0000

  /** Distance between neighbouring float64 values at magnitude `m`. */
  function Ulp(m: nat): (u: nat)
    ensures u >= 1
    ensures m <= EXACT ==> u == 1 || m == EXACT
  {
    if m < EXACT then 1 else 2 * Ulp(m / 2)
  }

  /** Nearest multiple of `u`, ties to the even multiple. */
  function RoundTo(m: nat, u: nat): nat
    requires u >= 1
  {
    var q, r := m / u, m % u;
    if 2 * r < u || (2 * r == u && q % 2 == 0) then q * u else (q + 1) * u
  }

  /** int64 -> float64 -> int64, for values that stay inside int64. */
  function Float64(n: int): int {
    var m := Magnitude(n);
    if n >= 0 then RoundTo(m, Ulp(m)) else 0 - RoundTo(m, Ulp(m))
  }

  lemma RoundToExactIff(m: nat, u: nat)
    requires u >= 1
    ensures RoundTo(m, u) == m <==> m % u == 0
  {
    var q, r := m / u, m % u;
    assert q * u + r == m;
    assert (q + 1) * u == q * u + u;
    assert 0 <= r < u;
  }

  function Magnitude(n: int): nat {
    if n >= 0 then n else -n
  }

  /** A number survives the round trip exactly when it is a multiple of the float64 spacing there. */
  lemma Float64ExactIff(n: int)
    ensures Float64(n) == n <==> Magnitude(n) % Ulp(Magnitude(n)) == 0
  {
    RoundToExactIff(Magnitude(n), Ulp(Magnitude(n)));
  }

  /** A power of two that leaves 53 significant bits: the spacing at magnitude m. */
  lemma {:induction false} UlpSpec(m: nat)
    ensures m >= EXACT ==> EXACT / 2 <= m / Ulp(m) < EXACT
    ensures m >= EXACT ==> Ulp(m) % 2 == 0 && Ulp(m) / 2 == Ulp(m / 2)
    ensures m < EXACT ==> Ulp(m) == 1
  {
    if m >= EXACT {
      UlpSpec(m / 2);
      var u := Ulp(m / 2);
      assert Ulp(m) == 2 * u;
      HalfQuotient(m, u);
    }
  }

  lemma HalfQuotient(m: nat, u: nat)
    requires u >= 1
    ensures m / (2 * u) == m / 2 / u
  {
    var q, r := m / 2 / u, m / 2 % u;
    assert m / 2 == q * u + r;
    var rest := 2 * r + m % 2;
    assert m == q * (2 * u) + rest;
    assert 0 <= rest < 2 * u;
    DivideUnique(m, 2 * u, q, rest);
  }

  lemma DivideUnique(m: nat, d: nat, q: nat, r: nat)
    requires m == q * d + r && r < d
    ensures m / d == q
  {
    Apart(m / d, q, d);
    Apart(q, m / d, d);
  }

  lemma {:induction false} Apart(p: nat, q: nat, d: nat)
    ensures p > q ==> p * d >= q * d + d
  {
    if p > q {
      Apart(p - 1, q, d);
      assert p * d == (p - 1) * d + d;
    }
  }

  /** The two multiples of u around m. */
  lemma Around(m: nat, u: nat) returns (q: nat, low: nat, high: nat)
    requires u >= 1
    ensures q == m / u && low == q * u && high == (q + 1) * u
    ensures high == low + u && m == low + m % u && m % u < u
  {
    q := m / u;
    low := q * u;
    high := low + u;
  }

  lemma RoundsToNearest(m: nat, u: nat) returns (k: nat)
    requires u >= 1
    ensures RoundTo(m, u) == k * u
    ensures -(u as int) <= 2 * (k * u - m) <= u
    ensures 2 * (k * u - m) == u || 2 * (k * u - m) == -(u as int) ==> k % 2 == 0
  {
    var q, low, high := Around(m, u);
    var r := m % u;
    if 2 * r < u || (2 * r == u && q % 2 == 0) {
      k := q;
      assert k * u == low;
    } else {
      k := q + 1;
      assert k * u == high;
    }
  }

  /** The nearest multiple of the spacing, and of two equally near ones the even multiple. */
  lemma Float64Nearest(n: nat) returns (k: nat)
    ensures Float64(n) == k * Ulp(n) && Float64(-(n as int)) == -(k * Ulp(n))
    ensures -(Ulp(n) as int) <= 2 * (k * Ulp(n) - n) <= Ulp(n)
    ensures 2 * (k * Ulp(n) - n) == Ulp(n) || 2 * (k * Ulp(n) - n) == -(Ulp(n) as int) ==> k % 2 == 0
  {
    k := RoundsToNearest(n, Ulp(n));
  }

  /** In particular below 2^53 in magnitude every number survives, and 2^53 + 1 does not. */
  lemma Float64Exact(n: int)
    ensures -EXACT < n < EXACT ==> Float64(n) == n
    ensures Float64(EXACT + 1) == EXACT
  {
    Float64ExactIff(n);
    assert Ulp(EXACT / 2) == 1;
    assert Ulp((EXACT + 1) / 2) == 1;
    assert (EXACT + 1) % 2 == 1;
  }
}
