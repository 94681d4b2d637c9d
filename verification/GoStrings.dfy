/** The functions of Go's `strings` package that the library calls, over ASCII case and white space. */
module GoStrings {

  predicate IsSpace(c: char) {
    c == ' ' || c == '\t' || c == '\n' || c == '\r' || c == '\U{0B}' || c == '\U{0C}'
  }

  function TrimLeftSpace(s: string): string {
    if s != "" && IsSpace(s[0]) then TrimLeftSpace(s[1..]) else s
  }

  function TrimRightSpace(s: string): string {
    if s != "" && IsSpace(s[|s| - 1]) then TrimRightSpace(s[..|s| - 1]) else s
  }

  function TrimSpace(s: string): string {
    TrimRightSpace(TrimLeftSpace(s))
  }

  /** strings.TrimRight(s, "/") */
  function TrimSlashes(s: string): string {
    if s != "" && s[|s| - 1] == '/' then TrimSlashes(s[..|s| - 1]) else s
  }

  function LowerChar(c: char): char {
    if 'A' <= c <= 'Z' then (c as int + 32) as char else c
  }

  function ToLower(s: string): string {
    seq(|s|, i requires 0 <= i < |s| => LowerChar(s[i]))
  }

  predicate EqualFold(a: string, b: string) {
    ToLower(a) == ToLower(b)
  }

  predicate HasPrefix(s: string, prefix: string) {
    prefix <= s
  }

  function TrimPrefix(s: string, prefix: string): string {
    if prefix <= s then s[|prefix|..] else s
  }

  function Count(s: string, c: char): nat {
    if s == "" then 0 else (if s[0] == c then 1 else 0) + Count(s[1..], c)
  }

  predicate Contains(s: string, sub: string)
    decreases |s|
  {
    sub <= s || (s != "" && Contains(s[1..], sub))
  }

  /** strings.Split(s, sep) for a one-character separator. */
  function Split(s: string, sep: char): (parts: seq<string>)
    ensures |parts| >= 1
  {
    if s == "" then [""]
    else
      var rest := Split(s[1..], sep);
      if s[0] == sep then [""] + rest else [[s[0]] + rest[0]] + rest[1..]
  }

  function Join(parts: seq<string>, sep: string): string {
    if parts == [] then "" else if |parts| == 1 then parts[0]
    else parts[0] + sep + Join(parts[1..], sep)
  }

  /** Length of the leading run of non-space characters. */
  function WordLen(s: string): (n: nat)
    ensures n <= |s|
  {
    if s == "" || IsSpace(s[0]) then 0 else 1 + WordLen(s[1..])
  }

  /** strings.Fields */
  function Fields(s: string): seq<string>
    decreases |s|
  {
    if s == "" then []
    else if IsSpace(s[0]) then Fields(s[1..])
    else [s[..WordLen(s)]] + Fields(s[WordLen(s)..])
  }

  // ---------------------------------------------------------------- what trimming leaves

  predicate AllSpace(s: string) {
    forall c :: c in s ==> IsSpace(c)
  }

  /** `r` is the middle of `s` between white space, and has none at its own ends. */
  ghost predicate Trimmed(s: string, r: string) {
    && (exists a, b :: s == a + r + b && AllSpace(a) && AllSpace(b))
    && (r != "" ==> !IsSpace(r[0]) && !IsSpace(r[|r| - 1]))
  }

  lemma {:induction false} TrimLeftSpec(s: string) returns (a: string)
    ensures s == a + TrimLeftSpace(s) && AllSpace(a)
    ensures TrimLeftSpace(s) != "" ==> !IsSpace(TrimLeftSpace(s)[0])
  {
    if s != "" && IsSpace(s[0]) {
      var a' := TrimLeftSpec(s[1..]);
      a := [s[0]] + a';
    } else {
      a := "";
    }
  }

  lemma {:induction false} TrimRightSpec(s: string) returns (b: string)
    ensures s == TrimRightSpace(s) + b && AllSpace(b)
    ensures TrimRightSpace(s) != "" ==> !IsSpace(TrimRightSpace(s)[|TrimRightSpace(s)| - 1])
    ensures TrimRightSpace(s) != "" ==> TrimRightSpace(s)[0] == s[0]
  {
    if s != "" && IsSpace(s[|s| - 1]) {
      var b' := TrimRightSpec(s[..|s| - 1]);
      b := b' + [s[|s| - 1]];
    } else {
      b := "";
    }
  }

  lemma TrimSpaceSpec(s: string)
    ensures Trimmed(s, TrimSpace(s))
  {
    var a := TrimLeftSpec(s);
    var b := TrimRightSpec(TrimLeftSpace(s));
    assert s == a + TrimSpace(s) + b;
  }

  /** A text without white space at its ends is left alone. */
  lemma TrimSpaceKeeps(s: string)
    requires s != "" ==> !IsSpace(s[0]) && !IsSpace(s[|s| - 1])
    ensures TrimSpace(s) == s
  {
  }

  lemma TrimSpaceIdempotent(s: string)
    ensures TrimSpace(TrimSpace(s)) == TrimSpace(s)
  {
    TrimSpaceSpec(s);
    TrimSpaceKeeps(TrimSpace(s));
  }

  /** Trailing slashes go, and nothing else. */
  lemma {:induction false} TrimSlashesSpec(s: string) returns (b: string)
    ensures s == TrimSlashes(s) + b && forall c :: c in b ==> c == '/'
    ensures TrimSlashes(s) != "" ==> TrimSlashes(s)[|TrimSlashes(s)| - 1] != '/'
    ensures TrimSlashes(s) != "" ==> TrimSlashes(s)[0] == s[0]
  {
    if s != "" && s[|s| - 1] == '/' {
      var b' := TrimSlashesSpec(s[..|s| - 1]);
      b := b' + "/";
    } else {
      b := "";
    }
  }

  /** Lower-casing and trimming commute. */
  lemma {:induction false} TrimLeftLower(s: string)
    ensures TrimLeftSpace(ToLower(s)) == ToLower(TrimLeftSpace(s))
  {
    if s != "" && IsSpace(s[0]) {
      assert ToLower(s)[1..] == ToLower(s[1..]);
      TrimLeftLower(s[1..]);
    }
  }

  lemma {:induction false} TrimRightLower(s: string)
    ensures TrimRightSpace(ToLower(s)) == ToLower(TrimRightSpace(s))
  {
    if s != "" && IsSpace(s[|s| - 1]) {
      assert ToLower(s)[..|s| - 1] == ToLower(s[..|s| - 1]);
      TrimRightLower(s[..|s| - 1]);
    }
  }

  lemma TrimSpaceLower(s: string)
    ensures TrimSpace(ToLower(s)) == ToLower(TrimSpace(s))
  {
    TrimLeftLower(s);
    TrimRightLower(TrimLeftSpace(s));
  }

  lemma LowerTwice(s: string)
    ensures ToLower(ToLower(s)) == ToLower(s)
  {
  }

  // ---------------------------------------------------------------- splitting and joining are inverse

  ghost predicate Without(parts: seq<string>, sep: char) {
    forall i :: 0 <= i < |parts| ==> sep !in parts[i]
  }

  lemma {:induction false} SplitHasNoSeparator(s: string, sep: char)
    ensures Without(Split(s, sep), sep)
  {
    if s != "" {
      SplitHasNoSeparator(s[1..], sep);
    }
  }

  lemma {:induction false} JoinSplit(s: string, sep: char)
    ensures Join(Split(s, sep), [sep]) == s
  {
    if s != "" {
      JoinSplit(s[1..], sep);
      var rest := Split(s[1..], sep);
      if s[0] == sep {
        assert ([""] + rest)[1..] == rest;
      } else {
        var parts := [[s[0]] + rest[0]] + rest[1..];
        assert parts[1..] == rest[1..];
        assert Join(parts, [sep]) == [s[0]] + Join(rest, [sep]);
      }
    }
  }

  lemma {:induction false} SplitPrefix(word: string, s: string, sep: char)
    requires sep !in word
    ensures Split(word + s, sep) == [word + Split(s, sep)[0]] + Split(s, sep)[1..]
  {
    if word == "" {
      var parts := Split(s, sep);
      assert word + s == s && word + parts[0] == parts[0];
      assert parts == [parts[0]] + parts[1..];
    } else {
      SplitPrefix(word[1..], s, sep);
      assert (word + s)[1..] == word[1..] + s;
      var first := Split(s, sep)[0];
      assert [word[0]] + (word[1..] + first) == word + first;
    }
  }

  lemma {:induction false} SplitJoin(parts: seq<string>, sep: char)
    requires parts != [] && Without(parts, sep)
    ensures Split(Join(parts, [sep]), sep) == parts
  {
    if |parts| == 1 {
      SplitPrefix(parts[0], "", sep);
      assert parts[0] + "" == parts[0];
    } else {
      SplitJoin(parts[1..], sep);
      var rest := Join(parts[1..], [sep]);
      assert ([sep] + rest)[1..] == rest;
      assert Split([sep] + rest, sep) == [""] + parts[1..];
      SplitPrefix(parts[0], [sep] + rest, sep);
      assert parts[0] + ([sep] + rest) == Join(parts, [sep]);
      assert parts[0] + "" == parts[0] && ([""] + parts[1..])[1..] == parts[1..];
    }
  }

  // ---------------------------------------------------------------- words

  predicate NoSpace(s: string) {
    forall i :: 0 <= i < |s| ==> !IsSpace(s[i])
  }

  ghost predicate Words(ws: seq<string>) {
    forall i :: 0 <= i < |ws| ==> ws[i] != "" && NoSpace(ws[i])
  }

  lemma {:induction false} WordLenSpec(s: string)
    ensures NoSpace(s[..WordLen(s)])
    ensures WordLen(s) < |s| ==> IsSpace(s[WordLen(s)])
  {
    if s != "" && !IsSpace(s[0]) {
      WordLenSpec(s[1..]);
      assert s[..WordLen(s)] == [s[0]] + s[1..][..WordLen(s[1..])];
    }
  }

  lemma {:induction false} FieldsAreWords(s: string)
    ensures Words(Fields(s))
    decreases |s|
  {
    if s != "" {
      if IsSpace(s[0]) {
        FieldsAreWords(s[1..]);
      } else {
        WordLenSpec(s);
        FieldsAreWords(s[WordLen(s)..]);
      }
    }
  }

  lemma {:induction false} WordLenOf(word: string, rest: string)
    requires NoSpace(word) && (rest == "" || IsSpace(rest[0]))
    ensures WordLen(word + rest) == |word|
  {
    if word != "" {
      assert (word + rest)[1..] == word[1..] + rest;
      WordLenOf(word[1..], rest);
    } else {
      assert word + rest == rest;
    }
  }

  /** Words joined by single spaces are read back. */
  lemma {:induction false} FieldsOfJoin(ws: seq<string>)
    requires Words(ws)
    ensures Fields(Join(ws, " ")) == ws
  {
    if |ws| == 1 {
      WordLenOf(ws[0], "");
      assert ws[0] + "" == ws[0] && ws[0][|ws[0]|..] == "";
    } else if ws != [] {
      var rest := Join(ws[1..], " ");
      FieldsOfJoin(ws[1..]);
      WordLenOf(ws[0], " " + rest);
      var s := Join(ws, " ");
      assert s == ws[0] + (" " + rest);
      assert s[|ws[0]|..] == " " + rest && (" " + rest)[1..] == rest;
      assert s[..|ws[0]|] == ws[0];
      assert Fields(" " + rest) == Fields(rest);
    }
  }
}
