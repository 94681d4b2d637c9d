/** validateCIMDPath (cimd.go): which escaped paths a client_id URL may have. */
module CimdPath {
  import opened Wrappers
  import opened GoStrings

  // ---------------------------------------------------------------- percent-decoding

  function HexValue(c: char): Option<int> {
    if '0' <= c <= '9' then Some(c as int - '0' as int)
    else if 'a' <= c <= 'f' then Some(c as int - 'a' as int + 10)
    else if 'A' <= c <= 'F' then Some(c as int - 'A' as int + 10)
    else None
  }

  /** A percent sign with two hexadecimal digits stands at the front. */
  predicate EscapeAtFront(s: string) {
    |s| >= 3 && s[0] == '%' && HexValue(s[1]).Some? && HexValue(s[2]).Some?
  }

  function EscapedByte(s: string): char
    requires EscapeAtFront(s)
  {
    (HexValue(s[1]).value * 16 + HexValue(s[2]).value) as char
  }

  /** url.PathUnescape */
  function Unescape(s: string): Option<string>
    decreases |s|
  {
    if s == "" then Some("")
    else if EscapeAtFront(s) then
      match Unescape(s[3..])
      case None => None
      case Some(rest) => Some([EscapedByte(s)] + rest)
    else if s[0] == '%' then None
    else
      match Unescape(s[1..])
      case None => None
      case Some(rest) => Some([s[0]] + rest)
  }

  /** strings.Contains(strings.ToUpper(s), "%hi lo") for an escape given by its two upper-case digits. */
  predicate ContainsEscape(s: string, hi: char, lo: char) {
    exists i :: 0 <= i < |s| - 2 && s[i] == '%' && ToUpperChar(s[i + 1]) == hi && ToUpperChar(s[i + 2]) == lo
  }

  function ToUpperChar(c: char): char {
    if 'a' <= c <= 'z' then (c as int - 32) as char else c
  }

  predicate EncodesSeparator(s: string) {
    ContainsEscape(s, '2', 'F') || ContainsEscape(s, '5', 'C')
  }

  // ---------------------------------------------------------------- path.Clean

  predicate Named(seg: string) {
    seg != "" && seg != "." && seg != ".."
  }

  /** The segments that remain: "" and "." vanish, ".." takes the one before it along (none at the root). */
  function CleanSegments(segs: seq<string>, kept: seq<string>): seq<string> {
    if segs == [] then kept
    else if segs[0] == "" || segs[0] == "." then CleanSegments(segs[1..], kept)
    else if segs[0] == ".." then CleanSegments(segs[1..], if kept == [] then [] else kept[..|kept| - 1])
    else CleanSegments(segs[1..], kept + [segs[0]])
  }

  /** path.Clean of a rooted path. */
  function Clean(path: string): string {
    "/" + Join(CleanSegments(Split(path, '/'), []), "/")
  }

  /** validateCIMDPath */
  predicate ValidCimdPath(raw: string) {
    && HasPrefix(raw, "/")
    && !EncodesSeparator(raw)
    && Unescape(raw).Some?
    && var decoded := Unescape(raw).value;
       Clean(decoded) == decoded || Clean(decoded) + "/" == decoded
  }

  // ---------------------------------------------------------------- decoding and splitting commute

  /** Each segment decodes on its own to the corresponding segment. */
  ghost predicate DecodesSegmentwise(raw: seq<string>, decoded: seq<string>) {
    |raw| == |decoded| && forall i :: 0 <= i < |raw| ==> Unescape(raw[i]) == Some(decoded[i])
  }

  lemma NoSeparatorLater(s: string, n: nat)
    requires n <= |s| && !EncodesSeparator(s)
    ensures !EncodesSeparator(s[n..])
  {
    var t := s[n..];
    forall i | 0 <= i < |t| - 2
      ensures !(t[i] == '%' && ToUpperChar(t[i + 1]) == '2' && ToUpperChar(t[i + 2]) == 'F')
      ensures !(t[i] == '%' && ToUpperChar(t[i + 1]) == '5' && ToUpperChar(t[i + 2]) == 'C')
    {
      assert t[i] == s[n + i] && t[i + 1] == s[n + i + 1] && t[i + 2] == s[n + i + 2];
    }
  }

  lemma EscapedByteIsNotSlash(s: string)
    requires EscapeAtFront(s) && !EncodesSeparator(s)
    ensures EscapedByte(s) != '/'
  {
    assert !(s[0] == '%' && ToUpperChar(s[1]) == '2' && ToUpperChar(s[2]) == 'F');
  }

  lemma SplitEscape(s: string)
    requires EscapeAtFront(s)
    ensures Split(s, '/') == [s[..3] + Split(s[3..], '/')[0]] + Split(s[3..], '/')[1..]
  {
    assert s == s[..3] + s[3..];
    SplitPrefix(s[..3], s[3..], '/');
  }

  /** Without an encoded separator, decoding creates no slash: it commutes with splitting. */
  lemma {:induction false} DecodingCommutesWithSplit(raw: string)
    requires Unescape(raw).Some? && !EncodesSeparator(raw)
    ensures DecodesSegmentwise(Split(raw, '/'), Split(Unescape(raw).value, '/'))
    decreases |raw|
  {
    if raw == "" {
    } else if EscapeAtFront(raw) {
      NoSeparatorLater(raw, 3);
      DecodingCommutesWithSplit(raw[3..]);
      EscapedByteIsNotSlash(raw);
      SplitEscape(raw);
      var decoded := Unescape(raw).value;
      assert decoded[1..] == Unescape(raw[3..]).value;
      var first := Split(raw[3..], '/')[0];
      assert (raw[..3] + first)[3..] == first;
      assert EscapeAtFront(raw[..3] + first) && EscapedByte(raw[..3] + first) == EscapedByte(raw);
    } else {
      NoSeparatorLater(raw, 1);
      DecodingCommutesWithSplit(raw[1..]);
      var decoded := Unescape(raw).value;
      assert decoded[1..] == Unescape(raw[1..]).value;
      if raw[0] != '/' {
        var first := Split(raw[1..], '/')[0];
        assert ([raw[0]] + first)[1..] == first;
      }
    }
  }

  // ---------------------------------------------------------------- what Clean leaves alone

  ghost predicate AllNamed(segs: seq<string>) {
    forall i :: 0 <= i < |segs| ==> Named(segs[i])
  }

  lemma {:induction false} CleanSegmentsAreNamed(segs: seq<string>, kept: seq<string>)
    requires AllNamed(kept) && Without(kept, '/') && Without(segs, '/')
    ensures AllNamed(CleanSegments(segs, kept)) && Without(CleanSegments(segs, kept), '/')
  {
    if segs != [] {
      if segs[0] == "" || segs[0] == "." {
        CleanSegmentsAreNamed(segs[1..], kept);
      } else if segs[0] == ".." {
        CleanSegmentsAreNamed(segs[1..], if kept == [] then [] else kept[..|kept| - 1]);
      } else {
        CleanSegmentsAreNamed(segs[1..], kept + [segs[0]]);
      }
    }
  }

  /** Segments of a cleaned path: the root, then named segments (or one empty one at the bare root). */
  lemma SplitClean(path: string)
    ensures var kept := CleanSegments(Split(path, '/'), []);
            && AllNamed(kept)
            && Split(Clean(path), '/') == [""] + if kept == [] then [""] else kept
  {
    var kept := CleanSegments(Split(path, '/'), []);
    SplitHasNoSeparator(path, '/');
    CleanSegmentsAreNamed(Split(path, '/'), []);
    var joined := Join(kept, "/");
    assert ("/" + joined)[1..] == joined;
    if kept != [] {
      SplitJoin(kept, '/');
    }
  }

  lemma {:induction false} SplitTrailingSlash(s: string)
    ensures Split(s + "/", '/') == Split(s, '/') + [""]
  {
    if s == "" {
      assert ("" + "/")[1..] == "";
    } else {
      SplitTrailingSlash(s[1..]);
      assert (s + "/")[1..] == s[1..] + "/";
    }
  }

  /**
   Root, named segments, and either a named last segment or a trailing slash. The doubled root
   "//" slips through as the cleaned "/" followed by a slash.
   */
  ghost predicate Canonical(segs: seq<string>) {
    || segs == ["", "", ""]
    || (&& |segs| >= 2 && segs[0] == ""
        && AllNamed(segs[1..|segs| - 1])
        && (segs[|segs| - 1] == "" || Named(segs[|segs| - 1])))
  }

  lemma {:induction false} NamedSegmentsStay(segs: seq<string>, kept: seq<string>)
    requires AllNamed(segs)
    ensures CleanSegments(segs, kept) == kept + segs
    ensures CleanSegments(segs + [""], kept) == kept + segs
  {
    if segs == [] {
      assert segs + [""] == [""] && [""][1..] == [];
    } else {
      NamedSegmentsStay(segs[1..], kept + [segs[0]]);
      assert (segs + [""])[1..] == segs[1..] + [""];
      assert kept + [segs[0]] + segs[1..] == kept + segs;
    }
  }

  /** Named segments under the root, with or without a trailing slash, are left alone. */
  lemma NamedPathIsClean(path: string, names: seq<string>)
    requires AllNamed(names)
    ensures Split(path, '/') == [""] + names && names != [] ==> Clean(path) == path
    ensures Split(path, '/') == [""] + names + [""] && names != [] ==> Clean(path) + "/" == path
    ensures Split(path, '/') == ["", ""] ==> Clean(path) == path
  {
    JoinSplit(path, '/');
    NamedSegmentsStay(names, []);
    JoinTrailing(names);
    assert [] + names == names;
    assert ([""] + names)[1..] == names;
    assert ([""] + names + [""])[1..] == names + [""];
    assert ["", ""][1..] == [""] && [""][1..] == [];
    assert CleanSegments([""], []) == [];
  }

  lemma CanonicalIsClean(path: string)
    requires Canonical(Split(path, '/'))
    ensures Clean(path) == path || Clean(path) + "/" == path
  {
    var segs := Split(path, '/');
    var n := |segs| - 1;
    if segs == ["", "", ""] {
      JoinSplit(path, '/');
      assert segs[1..] == ["", ""] && ["", ""][1..] == [""] && [""][1..] == [];
      assert CleanSegments([""], []) == [] && CleanSegments(["", ""], []) == [];
    } else if segs[n] != "" {
      assert segs[1..] == segs[1..n] + [segs[n]];
      assert segs == [""] + segs[1..];
      NamedPathIsClean(path, segs[1..]);
    } else {
      assert segs == [""] + segs[1..n] + [""];
      NamedPathIsClean(path, segs[1..n]);
    }
  }

  lemma {:induction false} JoinTrailing(segs: seq<string>)
    ensures segs != [] ==> Join(segs + [""], "/") == Join(segs, "/") + "/"
  {
    if |segs| == 1 {
      assert (segs + [""])[1..] == [""];
    } else if segs != [] {
      JoinTrailing(segs[1..]);
      assert (segs + [""])[1..] == segs[1..] + [""];
    }
  }

  lemma CanonicalHasNoDots(segs: seq<string>)
    requires Canonical(segs)
    ensures forall i :: 0 <= i < |segs| ==> segs[i] == "" || Named(segs[i])
  {
    forall i | 0 <= i < |segs|
      ensures segs[i] == "" || Named(segs[i])
    {
      if segs != ["", "", ""] && 1 <= i < |segs| - 1 {
        assert segs[i] == segs[1..|segs| - 1][i - 1];
      }
    }
  }

  /** The accepted paths, exactly: rooted, decodable, no encoded separator, canonical once decoded. */
  lemma ValidCimdPathIff(raw: string)
    ensures ValidCimdPath(raw)
            <==> HasPrefix(raw, "/") && !EncodesSeparator(raw) && Unescape(raw).Some?
                 && Canonical(Split(Unescape(raw).value, '/'))
  {
    if Unescape(raw).Some? {
      var decoded := Unescape(raw).value;
      SplitClean(decoded);
      SplitTrailingSlash(Clean(decoded));
      if Canonical(Split(decoded, '/')) {
        CanonicalIsClean(decoded);
      }
    }
  }

  /**
   For every accepted path, splitting the decoded path gives the decoded segments of the raw one,
   and none of them is "." or "..": no reader that resolves dot segments (section 5.2.4 of RFC
   3986), before or after decoding, sees another path. Nor does decoding bring in a backslash.
   */
  lemma AcceptedPathIsUnambiguous(raw: string)
    requires ValidCimdPath(raw)
    ensures var segs := Split(Unescape(raw).value, '/');
            && DecodesSegmentwise(Split(raw, '/'), segs)
            && forall i :: 0 <= i < |segs| ==> segs[i] != "." && segs[i] != ".."
    ensures Count(Unescape(raw).value, '\\') == Count(raw, '\\')
  {
    DecodingCommutesWithSplit(raw);
    SeparatorsStay(raw, '\\');
    ValidCimdPathIff(raw);
    CanonicalHasNoDots(Split(Unescape(raw).value, '/'));
  }

  // ---------------------------------------------------------------- what decoding means

  function HexDigit(n: nat, upper: bool): char
    requires n < 16
  {
    if upper then "0123456789ABCDEF"[n] else "0123456789abcdef"[n]
  }

  predicate Bytes(s: string) {
    forall i :: 0 <= i < |s| ==> s[i] as int < 256
  }

  /** Every byte escaped, in the chosen case. */
  function EscapeAll(s: string, upper: bool): string
    requires Bytes(s)
  {
    if s == "" then ""
    else ['%', HexDigit(s[0] as int / 16, upper), HexDigit(s[0] as int % 16, upper)] + EscapeAll(s[1..], upper)
  }

  /** Decoding undoes escaping, in upper or lower case. */
  lemma {:induction false} UnescapeInverts(s: string, upper: bool)
    requires Bytes(s)
    ensures Unescape(EscapeAll(s, upper)) == Some(s)
  {
    if s != "" {
      UnescapeInverts(s[1..], upper);
      EscapeRoundTrip(s[0], EscapeAll(s[1..], upper), upper);
      assert [s[0]] + s[1..] == s;
    }
  }

  lemma EscapeRoundTrip(c: char, rest: string, upper: bool)
    requires c as int < 256
    ensures var e := ['%', HexDigit(c as int / 16, upper), HexDigit(c as int % 16, upper)] + rest;
            EscapeAtFront(e) && EscapedByte(e) == c && e[3..] == rest
  {
    HexRoundTrip(c as int / 16, upper);
    HexRoundTrip(c as int % 16, upper);
  }

  /** A text without escapes is left alone. */
  lemma {:induction false} UnescapePlain(s: string)
    requires '%' !in s
    ensures Unescape(s) == Some(s)
  {
    if s != "" {
      assert s[0] in s && forall c :: c in s[1..] ==> c in s;
      UnescapePlain(s[1..]);
      assert [s[0]] + s[1..] == s;
    }
  }

  lemma HexRoundTrip(n: nat, upper: bool)
    requires n < 16
    ensures HexValue(HexDigit(n, upper)) == Some(n)
  {
    if n < 10 {
      assert n == 0 || n == 1 || n == 2 || n == 3 || n == 4 || n == 5 || n == 6 || n == 7 || n == 8 || n == 9;
    } else {
      assert n == 10 || n == 11 || n == 12 || n == 13 || n == 14 || n == 15;
    }
  }

  predicate IsHex(c: char) {
    '0' <= c <= '9' || 'a' <= c <= 'f' || 'A' <= c <= 'F'
  }

  ghost predicate WellEscaped(s: string) {
    forall i :: 0 <= i < |s| && s[i] == '%' ==> i + 2 < |s| && IsHex(s[i + 1]) && IsHex(s[i + 2])
  }

  /** A path decodes exactly when two hexadecimal digits follow each percent sign. */
  lemma {:induction false} UnescapeSomeIff(s: string)
    ensures Unescape(s).Some? <==> WellEscaped(s)
    decreases |s|
  {
    if s != "" {
      if EscapeAtFront(s) {
        UnescapeSomeIff(s[3..]);
        WellEscapedTail(s, 3);
      } else if s[0] != '%' {
        UnescapeSomeIff(s[1..]);
        WellEscapedTail(s, 1);
      }
    }
  }

  lemma WellEscapedTail(s: string, n: nat)
    requires n <= |s| && n <= 3
    requires forall i :: 0 <= i < n && s[i] == '%' ==> i + 2 < |s| && IsHex(s[i + 1]) && IsHex(s[i + 2])
    ensures WellEscaped(s) <==> WellEscaped(s[n..])
  {
    var t := s[n..];
    if WellEscaped(t) {
      forall i | 0 <= i < |s| && s[i] == '%'
        ensures i + 2 < |s| && IsHex(s[i + 1]) && IsHex(s[i + 2])
      {
        if i >= n {
          assert t[i - n] == '%';
        }
      }
    }
  }

  /** A literal slash or backslash, percent-encoded in either case, occurs in the path. */
  ghost predicate HasEncodedSeparator(s: string) {
    exists i: nat :: SeparatorEscapeAt(s, i)
  }

  predicate SeparatorEscapeAt(s: string, i: nat) {
    i + 3 <= |s| && var e := s[i..i + 3]; e == "%2F" || e == "%2f" || e == "%5C" || e == "%5c"
  }

  predicate FoldsTo(s: string, i: nat, hi: char, lo: char)
    requires i + 3 <= |s|
  {
    s[i] == '%' && ToUpperChar(s[i + 1]) == hi && ToUpperChar(s[i + 2]) == lo
  }

  lemma SeparatorEscapeIff(s: string, i: nat)
    requires i + 3 <= |s|
    ensures SeparatorEscapeAt(s, i) <==> FoldsTo(s, i, '2', 'F') || FoldsTo(s, i, '5', 'C')
  {
    assert s[i..i + 3] == [s[i], s[i + 1], s[i + 2]];
  }

  lemma EncodesSeparatorIff(s: string)
    ensures EncodesSeparator(s) <==> HasEncodedSeparator(s)
  {
    if ContainsEscape(s, '2', 'F') {
      var i :| 0 <= i < |s| - 2 && s[i] == '%' && ToUpperChar(s[i + 1]) == '2' && ToUpperChar(s[i + 2]) == 'F';
      SeparatorEscapeIff(s, i);
    } else if ContainsEscape(s, '5', 'C') {
      var i :| 0 <= i < |s| - 2 && s[i] == '%' && ToUpperChar(s[i + 1]) == '5' && ToUpperChar(s[i + 2]) == 'C';
      SeparatorEscapeIff(s, i);
    } else if HasEncodedSeparator(s) {
      var i: nat :| SeparatorEscapeAt(s, i);
      SeparatorEscapeIff(s, i);
    }
  }

  /** Decoding an accepted path brings in no slash and no backslash: it has as many as the raw path. */
  lemma {:induction false} SeparatorsStay(raw: string, c: char)
    requires (c == '/' || c == '\\') && Unescape(raw).Some? && !EncodesSeparator(raw)
    ensures Count(Unescape(raw).value, c) == Count(raw, c)
    decreases |raw|
  {
    if raw == "" {
    } else if EscapeAtFront(raw) {
      NoSeparatorLater(raw, 3);
      SeparatorsStay(raw[3..], c);
      assert !(raw[0] == '%' && ToUpperChar(raw[1]) == '2' && ToUpperChar(raw[2]) == 'F');
      assert !(raw[0] == '%' && ToUpperChar(raw[1]) == '5' && ToUpperChar(raw[2]) == 'C');
      assert EscapedByte(raw) != c;
      assert Unescape(raw).value[1..] == Unescape(raw[3..]).value;
      assert raw[1..][1..] == raw[2..] && raw[2..][1..] == raw[3..];
      assert Count(raw, c) == Count(raw[1..], c) == Count(raw[2..], c) == Count(raw[3..], c);
    } else {
      NoSeparatorLater(raw, 1);
      SeparatorsStay(raw[1..], c);
      assert Unescape(raw).value[1..] == Unescape(raw[1..]).value;
    }
  }
}
