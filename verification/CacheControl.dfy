/** cacheTTLFromHeader (cimd.go): how long a fetched document may be remembered. */
module CacheControl {
  import opened Wrappers
  import opened GoStrings
  import opened Clock

  const DEFAULT_TTL: int := 300 * SECOND
  const MAX_TTL: int := 3600 * SECOND
  const MAX_SECONDS: int := 3600

  predicate IsDigit(c: char) {
    '0' <= c <= '9'
  }

  predicate AllDigits(s: string) {
    forall i :: 0 <= i < |s| ==> IsDigit(s[i])
  }

  function Decimal(s: string): nat
    requires AllDigits(s)
  {
    if s == "" then 0 else Decimal(s[..|s| - 1]) * 10 + (s[|s| - 1] as int - '0' as int)
  }

  /** strconv.Atoi on a 64-bit platform: optional sign, decimal digits, int64 range. */
  function Atoi(s: string): Option<int> {
    var signed := s != "" && (s[0] == '-' || s[0] == '+');
    var digits := if signed then s[1..] else s;
    if digits == "" || !AllDigits(digits) then None
    else
      var n := if signed && s[0] == '-' then -(Decimal(digits) as int) else Decimal(digits);
      if -0x8000_0000_0000_0000 <= n < 0x8000_0000_0000_0000 then Some(n) else None
  }

  datatype Directive = Ignored | NoStore | MaxAge(seconds: int)

  function Classify(raw: string): Directive {
    var d := TrimSpace(ToLower(raw));
    if d == "no-store" || d == "no-cache" then NoStore
    else if HasPrefix(d, "max-age=") then
      match Atoi(TrimPrefix(d, "max-age="))
      case None => Ignored
      case Some(n) => MaxAge(n)
    else Ignored
  }

  function Directives(cc: string): seq<Directive> {
    var parts := Split(cc, ',');
    seq(|parts|, i requires 0 <= i < |parts| => Classify(parts[i]))
  }

  /** What the directives from here on make of the age remembered so far (negative for none). */
  function Scan(ds: seq<Directive>, maxAge: int): int {
    if ds == [] then if maxAge < 0 then DEFAULT_TTL else maxAge
    else
      match ds[0]
      case Ignored => Scan(ds[1..], maxAge)
      case NoStore => 0
      case MaxAge(n) =>
        if n <= 0 then 0 else if n > MAX_SECONDS then MAX_TTL else Scan(ds[1..], n * SECOND)
  }

  function CacheTtl(cc: string): int {
    if cc == "" then DEFAULT_TTL else Scan(Directives(cc), -1)
  }

  /** The loop of the source computes `CacheTtl`; its final clamp is never needed. */
  method CacheTtlFromHeader(cc: string) returns (ttl: int)
    ensures ttl == CacheTtl(cc)
  {
    if cc == "" {
      return DEFAULT_TTL;
    }
    var maxAge := -1;
    var parts := Split(cc, ',');
    ghost var ds := Directives(cc);
    for i := 0 to |parts|
      invariant -1 <= maxAge <= MAX_TTL
      invariant Scan(ds, -1) == Scan(ds[i..], maxAge)
    {
      assert ds[i..][0] == Classify(parts[i]) && ds[i..][1..] == ds[i + 1..];
      var directive := TrimSpace(ToLower(parts[i]));
      if directive == "" {
        continue;
      }
      if directive == "no-store" || directive == "no-cache" {
        return 0;
      } else if HasPrefix(directive, "max-age=") {
        var parsed := Atoi(TrimPrefix(directive, "max-age="));
        if parsed.None? {
          continue;
        }
        var n := parsed.value;
        if n <= 0 {
          return 0;
        }
        if n > MAX_SECONDS {
          return MAX_TTL;
        }
        maxAge := n * SECOND;
      }
    }
    assert ds[|parts|..] == [];
    if maxAge < 0 {
      return DEFAULT_TTL;
    }
    if maxAge > MAX_TTL {
      return MAX_TTL;
    }
    return maxAge;
  }

  // ---------------------------------------------------------------- what the header means

  predicate Forbids(d: Directive) {
    d.NoStore? || (d.MaxAge? && d.seconds <= 0)
  }

  predicate OverCap(d: Directive) {
    d.MaxAge? && d.seconds > MAX_SECONDS
  }

  predicate Usable(d: Directive) {
    d.MaxAge? && 1 <= d.seconds <= MAX_SECONDS
  }

  /** Position i decides: nothing before it is decisive. */
  ghost predicate First(ds: seq<Directive>, i: nat) {
    && i < |ds| && (Forbids(ds[i]) || OverCap(ds[i]))
    && forall j :: 0 <= j < i ==> !Forbids(ds[j]) && !OverCap(ds[j])
  }

  lemma {:induction false} ScanByFirst(ds: seq<Directive>, maxAge: int, i: nat)
    requires First(ds, i)
    ensures Scan(ds, maxAge) == if Forbids(ds[i]) then 0 else MAX_TTL
  {
    if i > 0 {
      assert First(ds[1..], i - 1);
      ScanByFirst(ds[1..], if ds[0].MaxAge? then ds[0].seconds * SECOND else maxAge, i - 1);
    }
  }

  /** Position i holds the last usable age. */
  ghost predicate LastUsable(ds: seq<Directive>, i: nat) {
    i < |ds| && Usable(ds[i]) && forall j :: i < j < |ds| ==> !Usable(ds[j])
  }

  lemma {:induction false} ScanWithoutFirst(ds: seq<Directive>, maxAge: int)
    requires forall i :: 0 <= i < |ds| ==> !Forbids(ds[i]) && !OverCap(ds[i])
    ensures forall i: nat :: LastUsable(ds, i) ==> Scan(ds, maxAge) == ds[i].seconds * SECOND
    ensures (forall i :: 0 <= i < |ds| ==> !Usable(ds[i])) ==> Scan(ds, maxAge) == Scan([], maxAge)
  {
    if ds != [] {
      var maxAge' := if ds[0].MaxAge? then ds[0].seconds * SECOND else maxAge;
      ScanWithoutFirst(ds[1..], maxAge');
      forall i: nat | LastUsable(ds, i)
        ensures Scan(ds, maxAge) == ds[i].seconds * SECOND
      {
        if i > 0 {
          assert LastUsable(ds[1..], i - 1);
        } else {
          assert forall j :: 0 <= j < |ds[1..]| ==> !Usable(ds[1..][j]);
          assert Scan([], maxAge') == maxAge';
        }
      }
    }
  }

  /** There is a first decisive directive, or none at all. */
  lemma {:induction false} FirstOrNone(ds: seq<Directive>) returns (i: nat)
    ensures i < |ds| ==> First(ds, i)
    ensures i >= |ds| ==> forall j :: 0 <= j < |ds| ==> !Forbids(ds[j]) && !OverCap(ds[j])
  {
    if ds == [] {
      i := 0;
    } else if Forbids(ds[0]) || OverCap(ds[0]) {
      i := 0;
    } else {
      var i' := FirstOrNone(ds[1..]);
      i := i' + 1;
    }
  }

  /** Every TTL is zero or between one second and one hour. */
  lemma {:induction false} ScanRange(ds: seq<Directive>, maxAge: int)
    requires maxAge < 0 || SECOND <= maxAge <= MAX_TTL
    ensures Scan(ds, maxAge) == 0 || SECOND <= Scan(ds, maxAge) <= MAX_TTL
  {
    if ds != [] {
      ScanRange(ds[1..], maxAge);
      if Usable(ds[0]) {
        ScanRange(ds[1..], ds[0].seconds * SECOND);
      }
    }
  }

  lemma TtlRange(cc: string)
    ensures CacheTtl(cc) == 0 || SECOND <= CacheTtl(cc) <= 3600 * SECOND
  {
    ScanRange(Directives(cc), -1);
  }

  lemma {:induction false} ScanNonZero(ds: seq<Directive>, maxAge: int)
    requires maxAge != 0 && forall j :: 0 <= j < |ds| ==> !Forbids(ds[j])
    ensures Scan(ds, maxAge) != 0
  {
    if ds != [] {
      ScanNonZero(ds[1..], maxAge);
      if Usable(ds[0]) {
        ScanNonZero(ds[1..], ds[0].seconds * SECOND);
      }
    }
  }

  // ---------------------------------------------------------------- the text of a header

  /** Part i of the header, lower-cased and trimmed. */
  function Part(cc: string, i: nat): string
    requires i < |Split(cc, ',')|
  {
    TrimSpace(ToLower(Split(cc, ',')[i]))
  }

  /** The age a part names, if it is "max-age=" and a number. */
  function Age(part: string): Option<int> {
    if "max-age=" <= part then Atoi(part[8..]) else None
  }

  /** The part forbids remembering: no-store, no-cache or an age that is not positive. */
  predicate Stops(part: string) {
    part == "no-store" || part == "no-cache" || (Age(part).Some? && Age(part).value <= 0)
  }

  /** The part names more than an hour, which ends the scan. */
  predicate EndsAtAnHour(part: string) {
    Age(part).Some? && Age(part).value > 3600
  }

  lemma DirectivesMean(cc: string, i: nat)
    requires i < |Split(cc, ',')|
    ensures |Directives(cc)| == |Split(cc, ',')|
    ensures Forbids(Directives(cc)[i]) <==> Stops(Part(cc, i))
    ensures OverCap(Directives(cc)[i]) <==> EndsAtAnHour(Part(cc, i))
    ensures Usable(Directives(cc)[i]) <==> Age(Part(cc, i)).Some? && 1 <= Age(Part(cc, i)).value <= 3600
    ensures Usable(Directives(cc)[i]) ==> Age(Part(cc, i)) == Some(Directives(cc)[i].seconds)
  {
    var d := Part(cc, i);
    assert Directives(cc)[i] == Classify(Split(cc, ',')[i]);
    assert "max-age=" <= d ==> TrimPrefix(d, "max-age=") == d[8..];
    assert d == "no-store" || d == "no-cache" ==> d[0] == 'n';
  }

  /** Some part before i ends the scan at an hour. */
  ghost predicate Shielded(cc: string, i: nat)
    requires i < |Split(cc, ',')|
  {
    exists j :: 0 <= j < i && EndsAtAnHour(Part(cc, j))
  }

  /**
   Nothing is remembered exactly when some part is no-store, no-cache or a max-age that is not
   positive, and no earlier part is a max-age above 3600.
   */
  lemma NotRememberedIff(cc: string)
    requires cc != ""
    ensures CacheTtl(cc) == 0 <==> exists i :: 0 <= i < |Split(cc, ',')| && Stops(Part(cc, i)) && !Shielded(cc, i)
  {
    var ds := Directives(cc);
    forall i | 0 <= i < |ds|
      ensures Forbids(ds[i]) <==> Stops(Part(cc, i))
      ensures OverCap(ds[i]) <==> EndsAtAnHour(Part(cc, i))
    {
      DirectivesMean(cc, i);
    }
    var f := FirstOrNone(ds);
    if f < |ds| {
      ScanByFirst(ds, -1, f);
      if Forbids(ds[f]) {
        assert Stops(Part(cc, f)) && !Shielded(cc, f);
      } else {
        forall i | 0 <= i < |ds| && Stops(Part(cc, i))
          ensures Shielded(cc, i)
        {
          assert Forbids(ds[i]) && f < i;
          assert EndsAtAnHour(Part(cc, f));
        }
      }
    } else {
      ScanNonZero(ds, -1);
    }
  }

  /** Otherwise an age above 3600 gives an hour, else the last age counts, else five minutes. */
  lemma OtherwiseLastMaxAge(cc: string)
    requires cc != "" && forall i :: 0 <= i < |Split(cc, ',')| ==> !Stops(Part(cc, i))
    ensures (exists i :: 0 <= i < |Split(cc, ',')| && EndsAtAnHour(Part(cc, i))) ==> CacheTtl(cc) == 3600 * SECOND
    ensures (forall i :: 0 <= i < |Split(cc, ',')| ==> !EndsAtAnHour(Part(cc, i))) ==>
              forall i :: 0 <= i < |Split(cc, ',')| && Age(Part(cc, i)).Some? && NoAgeAfter(cc, i)
                          ==> CacheTtl(cc) == Age(Part(cc, i)).value * SECOND
    ensures (forall i :: 0 <= i < |Split(cc, ',')| ==> Age(Part(cc, i)).None?) ==> CacheTtl(cc) == 300 * SECOND
  {
    var ds := Directives(cc);
    forall i | 0 <= i < |ds|
      ensures !Forbids(ds[i])
      ensures OverCap(ds[i]) <==> EndsAtAnHour(Part(cc, i))
      ensures Usable(ds[i]) <==> Age(Part(cc, i)).Some? && !EndsAtAnHour(Part(cc, i))
      ensures Usable(ds[i]) ==> Age(Part(cc, i)) == Some(ds[i].seconds)
    {
      DirectivesMean(cc, i);
    }
    var f := FirstOrNone(ds);
    if f < |ds| {
      ScanByFirst(ds, -1, f);
      assert EndsAtAnHour(Part(cc, f));
    } else {
      ScanWithoutFirst(ds, -1);
      forall i: nat | i < |ds| && Age(Part(cc, i)).Some? && NoAgeAfter(cc, i)
        ensures CacheTtl(cc) == Age(Part(cc, i)).value * SECOND
      {
        assert LastUsable(ds, i);
      }
    }
  }

  ghost predicate NoAgeAfter(cc: string, i: nat)
    requires i < |Split(cc, ',')|
  {
    forall j :: i < j < |Split(cc, ',')| ==> Age(Part(cc, j)).None?
  }

  // ---------------------------------------------------------------- numbers

  function Digit(n: nat): char
    requires n < 10
  {
    ('0' as int + n) as char
  }

  /** The decimal digits of n. */
  function Numeral(n: nat): string {
    if n < 10 then [Digit(n)] else Numeral(n / 10) + [Digit(n % 10)]
  }

  lemma {:induction false} NumeralSpec(n: nat)
    ensures Numeral(n) != "" && AllDigits(Numeral(n)) && Decimal(Numeral(n)) == n
  {
    var s := Numeral(n);
    if n >= 10 {
      NumeralSpec(n / 10);
      assert s[..|s| - 1] == Numeral(n / 10);
    } else {
      assert s[..0] == "";
    }
  }

  /** A printed number is read back, with or without a sign, when it is an int64; anything else is an error. */
  lemma AtoiReadsBack(n: nat)
    ensures Atoi(Numeral(n)) == Atoi("+" + Numeral(n)) == (if n <= MAX_INT64 then Some(n) else None)
    ensures Atoi("-" + Numeral(n)) == (if n <= MAX_INT64 + 1 then Some(-(n as int)) else None)
  {
    NumeralSpec(n);
    var s := Numeral(n);
    assert IsDigit(s[0]);
    assert ("+" + s)[1..] == s && ("-" + s)[1..] == s;
  }

  lemma AtoiRejects(s: string)
    requires s == "" || s == "+" || s == "-" || exists i :: 1 <= i < |s| && !IsDigit(s[i])
    ensures Atoi(s) == None
  {
    if i :| 1 <= i < |s| && !IsDigit(s[i]) {
      assert s[1..][i - 1] == s[i];
    }
  }

  lemma {:induction false} SplitSingle(s: string)
    requires ',' !in s
    ensures Split(s, ',') == [s]
  {
    SplitPrefix(s, "", ',');
    assert s + "" == s;
  }

  /** The digits are plain characters, so the header is its own only part. */
  lemma MaxAgeIsOnePart(n: nat)
    ensures var cc := "max-age=" + Numeral(n);
            Split(cc, ',') == [cc] && Part(cc, 0) == cc && Age(cc) == Atoi(Numeral(n))
  {
    var cc := "max-age=" + Numeral(n);
    NumeralSpec(n);
    forall i | 0 <= i < |cc|
      ensures cc[i] != ',' && !IsSpace(cc[i]) && LowerChar(cc[i]) == cc[i]
    {
      if i >= 8 {
        assert cc[i] == Numeral(n)[i - 8] && IsDigit(Numeral(n)[i - 8]);
      }
    }
    SplitSingle(cc);
    assert ToLower(cc) == cc;
    TrimSpaceKeeps(cc);
    assert cc[8..] == Numeral(n);
  }

  lemma OnePartTtl(cc: string)
    requires cc != "" && |Split(cc, ',')| == 1 && "max-age=" <= Part(cc, 0)
    ensures CacheTtl(cc) == match Age(Part(cc, 0))
                            case None => 300 * SECOND
                            case Some(n) => if n <= 0 then 0 else if n > 3600 then 3600 * SECOND else n * SECOND
  {
    NotRememberedIff(cc);
    assert Part(cc, 0)[0] == 'm';
    if !Stops(Part(cc, 0)) {
      OtherwiseLastMaxAge(cc);
      assert NoAgeAfter(cc, 0);
    } else {
      assert !Shielded(cc, 0);
    }
  }

  /** A header that names one age, in full: n seconds up to an hour, an hour beyond, and no number past int64. */
  lemma SingleMaxAge(n: nat)
    ensures CacheTtl("max-age=" + Numeral(n))
            == if n == 0 then 0 else if n <= 3600 then n * SECOND
               else if n <= MAX_INT64 then 3600 * SECOND else 300 * SECOND
  {
    MaxAgeIsOnePart(n);
    AtoiReadsBack(n);
    OnePartTtl("max-age=" + Numeral(n));
  }
}
