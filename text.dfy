/** The string operations of ECMAScript that the application relies on:
    `toLowerCase` (ASCII letters only), `trim`, `split(",")`, `includes`,
    `join`, the `\s` character class and UTF-16 code units. */
module Text {
  import Seqs

  /** The ECMAScript WhiteSpace and LineTerminator code points: the set that
      both `String.prototype.trim` and the regular-expression class `\s` use. */
  const Spaces: set<char> := {
    '\t', '\n', '\U{000B}', '\U{000C}', '\r', ' ', '\U{00A0}', '\U{1680}',
    '\U{2000}', '\U{2001}', '\U{2002}', '\U{2003}', '\U{2004}', '\U{2005}',
    '\U{2006}', '\U{2007}', '\U{2008}', '\U{2009}', '\U{200A}',
    '\U{2028}', '\U{2029}', '\U{202F}', '\U{205F}', '\U{3000}', '\U{FEFF}'
  }

  predicate IsSpace(c: char) {
    c in Spaces
  }

  predicate IsBlank(s: string) {
    forall i :: 0 <= i < |s| ==> IsSpace(s[i])
  }

  /** Neither end of `s` is white space. */
  predicate IsTrimmed(s: string) {
    s == [] || (!IsSpace(s[0]) && !IsSpace(s[|s| - 1]))
  }

  // ---------------------------------------------------------------- case

  function LowerChar(c: char): char {
    if 'A' <= c <= 'Z' then (c as int + 32) as char else c
  }

  /** `toLowerCase`, restricted to ASCII: every other character is unchanged. */
  function Lower(s: string): (r: string)
    ensures |r| == |s|
    ensures forall i :: 0 <= i < |s| ==> r[i] == LowerChar(s[i])
  {
    seq(|s|, i requires 0 <= i < |s| => LowerChar(s[i]))
  }

  // ---------------------------------------------------------------- trim

  function TrimStart(s: string): (r: string)
    ensures |r| <= |s|
    ensures forall i :: 0 <= i < |s| - |r| ==> IsSpace(s[i])
    ensures r == [] || !IsSpace(r[0])
  {
    if |s| > 0 && IsSpace(s[0]) then TrimStart(s[1..]) else s
  }

  function TrimEnd(s: string): (r: string)
    ensures |r| <= |s|
    ensures forall i :: |r| <= i < |s| ==> IsSpace(s[i])
    ensures r == [] || !IsSpace(r[|r| - 1])
  {
    if |s| > 0 && IsSpace(s[|s| - 1]) then TrimEnd(s[..|s| - 1]) else s
  }

  /** `TrimStart` keeps a suffix of its argument. */
  lemma {:induction false} TrimStartIsSuffix(s: string)
    ensures TrimStart(s) == s[|s| - |TrimStart(s)|..]
  {
    if |s| > 0 && IsSpace(s[0]) {
      TrimStartIsSuffix(s[1..]);
      assert s[1..][|s| - 1 - |TrimStart(s)|..] == s[|s| - |TrimStart(s)|..];
    }
  }

  /** `TrimEnd` keeps a prefix of its argument. */
  lemma {:induction false} TrimEndIsPrefix(s: string)
    ensures TrimEnd(s) == s[..|TrimEnd(s)|]
  {
    if |s| > 0 && IsSpace(s[|s| - 1]) {
      TrimEndIsPrefix(s[..|s| - 1]);
      assert s[..|s| - 1][..|TrimEnd(s)|] == s[..|TrimEnd(s)|];
    }
  }

  /** `r` is `s[i..i + |r|]` and everything of `s` around it is white space. */
  predicate TrimmedAt(s: string, r: string, i: int) {
    0 <= i <= |s| - |r| && r == s[i..i + |r|] && IsBlank(s[..i]) && IsBlank(s[i + |r|..])
  }

  /** What `TrimStart` drops is white space. */
  lemma {:induction false} TrimStartDropsBlank(s: string)
    ensures IsBlank(s[..|s| - |TrimStart(s)|])
  {
    var head := s[..|s| - |TrimStart(s)|];
    forall k | 0 <= k < |head| ensures IsSpace(head[k]) {
      assert head[k] == s[k];
    }
  }

  /** What `TrimEnd` drops is white space. */
  lemma {:induction false} TrimEndDropsBlank(t: string)
    ensures IsBlank(t[|TrimEnd(t)|..])
  {
    var r := TrimEnd(t);
    var tail := t[|r|..];
    forall k | 0 <= k < |tail| ensures IsSpace(tail[k]) {
      assert tail[k] == t[|r| + k];
    }
  }

  lemma {:induction false} TrimStartEndAt(s: string)
    ensures TrimmedAt(s, TrimEnd(TrimStart(s)), |s| - |TrimStart(s)|)
  {
    var t := TrimStart(s);
    var r := TrimEnd(t);
    var i := |s| - |t|;
    TrimStartIsSuffix(s);
    TrimEndIsPrefix(t);
    TrimStartDropsBlank(s);
    TrimEndDropsBlank(t);
    SliceOfSuffix(s, i, |r|);
    assert s[i..][..|r|] == r;
    assert s[i..][|r|..] == t[|r|..];
  }

  lemma SliceOfSuffix(s: string, i: nat, n: nat)
    requires i + n <= |s|
    ensures s[i..i + n] == s[i..][..n]
    ensures s[i + n..] == s[i..][n..]
  {
  }

  /** `String.prototype.trim`: no white space at either end; `TrimIsInfix`
      says what was removed. */
  function Trim(s: string): (r: string)
    ensures IsTrimmed(r)
  {
    TrimEndIsPrefix(TrimStart(s));
    TrimEnd(TrimStart(s))
  }

  /** The result of `trim` is an infix of `s`, and everything of `s` around it
      is white space. */
  lemma TrimIsInfix(s: string)
    ensures exists i :: TrimmedAt(s, Trim(s), i)
  {
    TrimStartEndAt(s);
    assert TrimmedAt(s, Trim(s), |s| - |TrimStart(s)|);
  }

  /** `s.trim() === ""` exactly when `s` is blank. */
  lemma {:induction false} TrimEmptyIffBlank(s: string)
    ensures Trim(s) == [] <==> IsBlank(s)
  {
    var r := Trim(s);
    TrimIsInfix(s);
    var i :| TrimmedAt(s, r, i);
    if r == [] {
      forall k | 0 <= k < |s| ensures IsSpace(s[k]) {
        if k < i { assert s[..i][k] == s[k]; } else { assert s[i..][k - i] == s[k]; }
      }
    } else {
      assert s[i] == r[0];
    }
  }

  /** Trimming a string that has no white space at either end changes nothing. */
  lemma TrimOfTrimmed(s: string)
    requires IsTrimmed(s)
    ensures Trim(s) == s
  {
  }

  // ---------------------------------------------------------------- split / join

  /** `s.split(sep)` for a one-character separator: the pieces between
      separators, so `"".split(",")` is `[""]`. */
  function Split(s: string, sep: char): (r: seq<string>)
    ensures |r| == multiset(s)[sep] + 1
    ensures forall k :: 0 <= k < |r| ==> sep !in r[k]
  {
    if |s| == 0 then [""]
    else
      var rest := Split(s[1..], sep);
      assert s == [s[0]] + s[1..];
      if s[0] == sep then [""] + rest
      else [[s[0]] + rest[0]] + rest[1..]
  }

  /** `pieces.join(sep)`. */
  function Join(pieces: seq<string>, sep: string): string {
    if |pieces| == 0 then ""
    else if |pieces| == 1 then pieces[0]
    else pieces[0] + sep + Join(pieces[1..], sep)
  }

  /** Splitting on a separator and joining on it again gives back the input. */
  lemma {:induction false} JoinSplit(s: string, sep: char)
    ensures Join(Split(s, sep), [sep]) == s
  {
    if |s| > 0 {
      JoinSplit(s[1..], sep);
      JoinSplitStep(s, sep);
    }
  }

  /** One step of `JoinSplit`: from the tail to the whole string. */
  lemma JoinSplitStep(s: string, sep: char)
    requires |s| > 0
    requires Join(Split(s[1..], sep), [sep]) == s[1..]
    ensures Join(Split(s, sep), [sep]) == s
  {
    var rest := Split(s[1..], sep);
    if s[0] == sep {
      JoinSplitSep(s, sep, rest);
    } else if |rest| == 1 {
      JoinSplitOne(s, sep, rest);
    } else {
      JoinSplitMore(s, sep, rest);
    }
  }

  lemma JoinSplitSep(s: string, sep: char, rest: seq<string>)
    requires |s| > 0 && s[0] == sep && rest == Split(s[1..], sep)
    requires Join(rest, [sep]) == s[1..]
    ensures Join(Split(s, sep), [sep]) == s
  {
    assert Split(s, sep) == [""] + rest;
    JoinCons("", rest, [sep]);
    ConsTail(s);
  }

  lemma JoinSplitOne(s: string, sep: char, rest: seq<string>)
    requires |s| > 0 && s[0] != sep && rest == Split(s[1..], sep) && |rest| == 1
    requires Join(rest, [sep]) == s[1..]
    ensures Join(Split(s, sep), [sep]) == s
  {
    assert Split(s, sep) == [[s[0]] + rest[0]] by {
      assert rest[1..] == [];
    }
    ConsTail(s);
  }

  lemma JoinSplitMore(s: string, sep: char, rest: seq<string>)
    requires |s| > 0 && s[0] != sep && rest == Split(s[1..], sep) && |rest| > 1
    requires Join(rest, [sep]) == s[1..]
    ensures Join(Split(s, sep), [sep]) == s
  {
    var head := [s[0]] + rest[0];
    var tail := Join(rest[1..], [sep]);
    JoinSplitHead(s, sep, rest);
    JoinRest(rest, [sep]);
    ConsTail(s);
    Seqs.AppendAssoc([s[0]], rest[0], [sep] + tail);
  }

  lemma JoinSplitHead(s: string, sep: char, rest: seq<string>)
    requires |s| > 0 && s[0] != sep && rest == Split(s[1..], sep) && |rest| > 1
    ensures Join(Split(s, sep), [sep]) == ([s[0]] + rest[0]) + ([sep] + Join(rest[1..], [sep]))
  {
    var head := [s[0]] + rest[0];
    assert Split(s, sep) == [head] + rest[1..];
    JoinCons(head, rest[1..], [sep]);
  }

  lemma JoinRest(rest: seq<string>, sep: string)
    requires |rest| > 1
    ensures Join(rest, sep) == rest[0] + (sep + Join(rest[1..], sep))
  {
  }

  lemma ConsTail(s: string)
    requires |s| > 0
    ensures s == [s[0]] + s[1..]
  {
  }

  lemma JoinCons(x: string, rest: seq<string>, sep: string)
    requires |rest| >= 1
    ensures Join([x] + rest, sep) == x + (sep + Join(rest, sep))
  {
    assert ([x] + rest)[1..] == rest;
  }

  // ---------------------------------------------------------------- search

  /** `s.includes(t)`. */
  predicate Includes(s: string, t: string)
    decreases |s|
  {
    t <= s || (|s| > 0 && Includes(s[1..], t))
  }

  /** `t` occurs in `s` starting at index `i`. */
  predicate OccursAt(s: string, t: string, i: int) {
    0 <= i <= |s| - |t| && s[i..i + |t|] == t
  }

  /** `includes` holds exactly when `t` occurs at some index of `s`. */
  lemma {:induction false} IncludesIffOccurs(s: string, t: string)
    ensures Includes(s, t) <==> exists i :: OccursAt(s, t, i)
    decreases |s|
  {
    assert OccursAt(s, t, 0) <==> t <= s;
    if |s| == 0 {
      assert forall i :: OccursAt(s, t, i) ==> i == 0;
    } else {
      IncludesIffOccurs(s[1..], t);
      forall i | 1 <= i ensures OccursAt(s, t, i) <==> OccursAt(s[1..], t, i - 1) {
        if i <= |s| - |t| {
          assert s[1..][i - 1..i - 1 + |t|] == s[i..i + |t|];
        }
      }
      if Includes(s[1..], t) {
        var j :| OccursAt(s[1..], t, j);
        assert OccursAt(s, t, j + 1);
      }
      if exists i :: OccursAt(s, t, i) {
        var i :| OccursAt(s, t, i);
        if i > 0 {
          assert OccursAt(s[1..], t, i - 1);
        }
      }
    }
  }

  /** Every character of an included string occurs in the including one. */
  lemma {:induction false} IncludedCharsOccur(s: string, t: string)
    requires Includes(s, t)
    ensures forall k :: 0 <= k < |t| ==> t[k] in s
    decreases |s|
  {
    if t <= s {
      forall k | 0 <= k < |t| ensures t[k] in s {
        assert s[k] == t[k];
      }
    } else {
      IncludedCharsOccur(s[1..], t);
      forall k | 0 <= k < |t| ensures t[k] in s {
        assert t[k] in s[1..];
      }
    }
  }

  /** What a string includes, any extension of it includes. */
  lemma IncludesInPrefix(a: string, b: string, t: string)
    requires Includes(a, t)
    ensures Includes(a + b, t)
  {
    IncludesIffOccurs(a, t);
    var i :| OccursAt(a, t, i);
    assert (a + b)[i..i + |t|] == a[i..i + |t|];
    assert OccursAt(a + b, t, i);
    IncludesIffOccurs(a + b, t);
  }

  /** Lowering distributes over concatenation. */
  lemma LowerConcat(a: string, b: string)
    ensures Lower(a + b) == Lower(a) + Lower(b)
  {
  }

  /** Every string includes itself and the empty string. */
  lemma IncludesSelf(s: string)
    ensures Includes(s, s) && Includes(s, "")
  {
  }

  // ---------------------------------------------------------------- regexes

  /** `s.replace(/^@/, "")`: removes one leading `@`, nothing else. */
  function StripAt(s: string): (r: string)
    ensures r == s || (s == "@" + r)
    ensures |s| > 0 && s[0] == '@' <==> |r| == |s| - 1
  {
    if |s| > 0 && s[0] == '@' then s[1..] else s
  }

  /** Only `""` and `"@"` strip to the empty string. */
  lemma StripAtEmptyIff(s: string)
    ensures StripAt(s) == "" <==> s == "" || s == "@"
  {
    if |s| == 1 && s[0] == '@' {
      assert s == "@";
    }
  }

  /** `s.substring(0, n)`. */
  function Take(s: string, n: nat): (r: string)
    ensures |r| <= n && r <= s
    ensures |s| <= n ==> r == s
    ensures |s| > n ==> |r| == n
  {
    if |s| <= n then s else s[..n]
  }

  // ---------------------------------------------------------------- UTF-16

  /** The UTF-16 code units of one code point: the code itself below 2^16,
      otherwise a high surrogate and a low surrogate that together encode
      the code minus 2^16. */
  function CodeUnits(c: char): (r: seq<int>)
    ensures 1 <= |r| <= 2
    ensures forall k :: 0 <= k < |r| ==> 0 <= r[k] < 0x1_0000
    ensures |r| == 1 <==> c as int < 0x1_0000
    ensures |r| == 1 ==> r[0] == c as int
    ensures |r| == 2 ==> && 0xD800 <= r[0] < 0xDC00 && 0xDC00 <= r[1] < 0xE000
                         && 0x1_0000 + (r[0] - 0xD800) * 0x400 + (r[1] - 0xDC00) == c as int
  {
    var v := c as int;
    if v < 0x1_0000 then [v]
    else
      var w := v - 0x1_0000;
      [0xD800 + w / 0x400, 0xDC00 + w % 0x400]
  }

  /** The code units that `charCodeAt` visits, in order. */
  function Utf16(s: string): (r: seq<int>)
    ensures |r| >= |s|
    ensures forall k :: 0 <= k < |r| ==> 0 <= r[k] < 0x1_0000
  {
    if s == [] then [] else CodeUnits(s[0]) + Utf16(s[1..])
  }

  /** The character a code unit denotes on its own; a lone surrogate, which
      `Utf16` never produces, reads as U+FFFD. */
  function UnitChar(u: int): char {
    if 0 <= u < 0xD800 || 0xE000 <= u < 0x11_0000 then u as char else '\U{FFFD}'
  }

  /** Decoding UTF-16: a high surrogate followed by a low one is one
      character, any other unit stands for itself. */
  function FromUtf16(us: seq<int>): string
    decreases |us|
  {
    if us == [] then []
    else if |us| >= 2 && 0xD800 <= us[0] < 0xDC00 && 0xDC00 <= us[1] < 0xE000 then
      var v := 0x1_0000 + (us[0] - 0xD800) * 0x400 + (us[1] - 0xDC00);
      [UnitChar(v)] + FromUtf16(us[2..])
    else [UnitChar(us[0])] + FromUtf16(us[1..])
  }

  /** Decoding the units of one character followed by more units. */
  lemma FromUtf16Cons(c: char, rest: seq<int>)
    ensures FromUtf16(CodeUnits(c) + rest) == [c] + FromUtf16(rest)
  {
    var u := CodeUnits(c);
    var us := u + rest;
    if |u| == 1 {
      assert us[0] == c as int && us[1..] == rest;
      assert !(0xD800 <= us[0] < 0xE000);
      assert UnitChar(us[0]) == c;
    } else {
      assert us[0] == u[0] && us[1] == u[1] && us[2..] == rest;
      assert UnitChar(0x1_0000 + (u[0] - 0xD800) * 0x400 + (u[1] - 0xDC00)) == c;
    }
  }

  /** `Utf16` loses nothing: decoding its units gives the string back. */
  lemma {:induction false} Utf16RoundTrip(s: string)
    ensures FromUtf16(Utf16(s)) == s
  {
    if s != [] {
      Utf16RoundTrip(s[1..]);
      FromUtf16Cons(s[0], Utf16(s[1..]));
      assert s == [s[0]] + s[1..];
    }
  }

  /** A string of Basic Multilingual Plane characters (Hebrew, Latin) has one
      code unit per character, each equal to the character's code. */
  lemma {:induction false} Utf16OfBmp(s: string)
    requires forall k :: 0 <= k < |s| ==> s[k] as int < 0x1_0000
    ensures |Utf16(s)| == |s|
    ensures forall k :: 0 <= k < |s| ==> Utf16(s)[k] == s[k] as int
  {
    if s != [] {
      Utf16OfBmp(s[1..]);
    }
  }
}
