/** The pieces of the catalog ID generator `generateId(name, city)`: a 32-bit
    string hash, a base-36 rendering of its magnitude, and two readable slugs
    built from the Latin letters, digits and white space of the name and city. */
module IdGen {
  import opened Text
  import Seqs

  const TWO32: int := 0x1_0000_0000
  const TWO31: int := 0x8000_0000

  // ---------------------------------------------------------------- 32-bit arithmetic

  /** ToInt32 (ECMA-262 section 7.1.6) on integral arguments: the unique
      signed 32-bit integer congruent to `x` modulo 2^32. */
  function ToInt32(x: int): (r: int)
    ensures -TWO31 <= r < TWO31
    ensures (x - r) % TWO32 == 0
  {
    var m := x % TWO32;
    if m >= TWO31 then m - TWO32 else m
  }

  /** `a` and `b` are congruent modulo 2^32. */
  predicate Congruent(a: int, b: int) {
    (a - b) % TWO32 == 0
  }

  lemma ModMultiple(k: int, d: int)
    ensures (k * TWO32 + d) % TWO32 == d % TWO32
  {
  }

  lemma CongruentSymmetric(a: int, b: int)
    requires Congruent(a, b)
    ensures Congruent(b, a)
  {
    var k := (a - b) / TWO32;
    assert b - a == (-k) * TWO32;
    ModMultiple(-k, 0);
  }

  lemma CongruentTransitive(a: int, b: int, c: int)
    requires Congruent(a, b) && Congruent(b, c)
    ensures Congruent(a, c)
  {
    var k1 := (a - b) / TWO32;
    var k2 := (b - c) / TWO32;
    assert a - c == (k1 + k2) * TWO32;
    ModMultiple(k1 + k2, 0);
  }

  /** ToInt32 only depends on the residue modulo 2^32. */
  lemma ToInt32Congruent(x: int, y: int)
    requires Congruent(x, y)
    ensures ToInt32(x) == ToInt32(y)
  {
    var k := (x - y) / TWO32;
    assert x == k * TWO32 + y;
    ModMultiple(k, y);
  }

  /** A multiple of a multiple of 2^32 is one. */
  lemma ScaleCongruence(a: int, b: int, f: int)
    requires Congruent(a, b)
    ensures Congruent(f * a, f * b)
  {
    var k := (a - b) / TWO32;
    assert a - b == k * TWO32;
    assert f * a - f * b == (f * k) * TWO32;
    ModMultiple(f * k, 0);
  }

  /** `hash << 5`: the left operand goes through ToInt32 and so does the result. */
  function ShiftLeft5(h: int): int {
    ToInt32(ToInt32(h) * 32)
  }

  /** One turn of the loop: `hash = ((hash << 5) - hash) + char; hash = hash & hash`.
      `&` applies ToInt32 to both operands, and a 32-bit value ANDed with
      itself is that value, so the second statement is ToInt32. */
  function HashStep(h: int, c: int): (r: int)
    ensures r == ToInt32(31 * h + c)
  {
    ShiftSubIsTimes31(h, c);
    ToInt32(ShiftLeft5(h) - h + c)
  }

  /** The shift-and-subtract step is multiplication by 31 with 32-bit wrap-around. */
  lemma ShiftSubIsTimes31(h: int, c: int)
    ensures ToInt32(ShiftLeft5(h) - h + c) == ToInt32(31 * h + c)
  {
    var t := ToInt32(h) * 32;
    var s := ToInt32(t);
    assert Congruent(t, 32 * h) by {
      CongruentSymmetric(h, ToInt32(h));
      ScaleCongruence(ToInt32(h), h, 32);
    }
    assert Congruent(s, 32 * h) by {
      CongruentSymmetric(t, s);
      CongruentTransitive(s, t, 32 * h);
    }
    assert Congruent(s - h + c, 31 * h + c);
    ToInt32Congruent(s - h + c, 31 * h + c);
  }

  /** The hash after visiting the code units `us` from left to right, from 0. */
  function Hash(us: seq<int>): (r: int)
    ensures -TWO31 <= r < TWO31
  {
    if us == [] then 0 else HashStep(Hash(us[..|us| - 1]), us[|us| - 1])
  }

  /** The same sum without wrap-around: sum of us[k] * 31^(n-1-k). */
  function Poly(us: seq<int>): int {
    if us == [] then 0 else 31 * Poly(us[..|us| - 1]) + us[|us| - 1]
  }

  /** The loop computes the polynomial string hash reduced by ToInt32 at the end:
      reducing at every step loses nothing. */
  lemma {:induction false} HashIsReducedPoly(us: seq<int>)
    ensures Hash(us) == ToInt32(Poly(us))
  {
    if us != [] {
      var p := us[..|us| - 1];
      var c := us[|us| - 1];
      HashIsReducedPoly(p);
      assert Hash(us) == HashStep(Hash(p), c);
      assert Congruent(31 * Hash(p) + c, 31 * Poly(p) + c) by {
        CongruentSymmetric(Poly(p), Hash(p));
        ScaleCongruence(Hash(p), Poly(p), 31);
      }
      ToInt32Congruent(31 * Hash(p) + c, 31 * Poly(p) + c);
      assert Poly(us) == 31 * Poly(p) + c;
    }
  }

  // ---------------------------------------------------------------- base 36

  function DigitChar(d: nat): char
    requires d < 36
  {
    if d < 10 then ('0' as int + d) as char else ('a' as int + d - 10) as char
  }

  predicate IsDigit36(c: char) {
    '0' <= c <= '9' || 'a' <= c <= 'z'
  }

  function DigitValue(c: char): nat
    requires IsDigit36(c)
  {
    if '0' <= c <= '9' then c as int - '0' as int else c as int - 'a' as int + 10
  }

  /** `n.toString(36)`: lower-case base-36 digits, most significant first. */
  function ToBase36(n: nat): (r: string)
    ensures 1 <= |r|
    ensures forall k :: 0 <= k < |r| ==> IsDigit36(r[k])
    ensures r[0] == '0' ==> n == 0
    decreases n
  {
    if n < 36 then [DigitChar(n)] else ToBase36(n / 36) + [DigitChar(n % 36)]
  }

  /** The value of a string of base-36 digits. */
  function FromBase36(s: string): nat
    requires forall k :: 0 <= k < |s| ==> IsDigit36(s[k])
  {
    if s == [] then 0 else FromBase36(s[..|s| - 1]) * 36 + DigitValue(s[|s| - 1])
  }

  /** Reading the base-36 rendering back gives the number. */
  lemma {:induction false} Base36RoundTrip(n: nat)
    ensures FromBase36(ToBase36(n)) == n
    decreases n
  {
    if n >= 36 {
      Base36RoundTrip(n / 36);
      var r := ToBase36(n);
      assert r[..|r| - 1] == ToBase36(n / 36);
    }
  }

  function Pow36(k: nat): nat {
    if k == 0 then 1 else 36 * Pow36(k - 1)
  }

  /** A number below 36^k has at most k base-36 digits. */
  lemma {:induction false} Base36Length(n: nat, k: nat)
    requires 1 <= k && n < Pow36(k)
    ensures |ToBase36(n)| <= k
    decreases n
  {
    if n >= 36 {
      assert Pow36(1) == 36;
      assert k >= 2;
      assert n / 36 < Pow36(k - 1);
      Base36Length(n / 36, k - 1);
    }
  }

  function Abs(h: int): nat {
    if h < 0 then -h else h
  }

  /** `Math.abs(hash).toString(36).substring(0, 6)`. */
  function HashStr(h: int): string {
    Take(ToBase36(Abs(h)), 6)
  }

  /** For a 32-bit hash the cut to six characters never removes a digit:
      |hash| <= 2^31 < 36^6. So the hash part is never empty, holds only base-36
      digits, and determines |hash|. */
  lemma HashStrExact(h: int)
    requires -TWO31 <= h < TWO31
    ensures HashStr(h) == ToBase36(Abs(h))
    ensures 1 <= |HashStr(h)| <= 6
    ensures forall k :: 0 <= k < |HashStr(h)| ==> IsDigit36(HashStr(h)[k])
    ensures FromBase36(HashStr(h)) == Abs(h)
  {
    assert Pow36(6) == 2176782336;
    Base36Length(Abs(h), 6);
    Base36RoundTrip(Abs(h));
  }

  // ---------------------------------------------------------------- slugs

  /** The characters that survive `.replace(/[^a-z0-9\s]/g, "")`. */
  predicate IsSlugSource(c: char) {
    'a' <= c <= 'z' || '0' <= c <= '9' || IsSpace(c)
  }

  /** The characters a finished slug may hold. */
  predicate IsSlugChar(c: char) {
    'a' <= c <= 'z' || '0' <= c <= '9' || c == '-'
  }

  /** `.replace(/[^a-z0-9\s]/g, "")`: every slug source character is kept,
      in order, and nothing else. */
  function KeepSlugSource(s: string): (r: string)
    ensures forall k :: 0 <= k < |r| ==> IsSlugSource(r[k])
    ensures Seqs.IsSubseq(r, s)
    ensures forall c :: multiset(r)[c] == if IsSlugSource(c) then multiset(s)[c] else 0
  {
    Seqs.FilterSpec(s, IsSlugSource);
    Seqs.FilterCountAll(s, IsSlugSource);
    Seqs.Filter(s, IsSlugSource)
  }

  function DropSpaces(s: string): (r: string)
    ensures |r| <= |s|
    ensures forall k :: 0 <= k < |r| ==> r[k] in s
    ensures r == [] || !IsSpace(r[0])
  {
    if s != [] && IsSpace(s[0]) then
      var r := DropSpaces(s[1..]);
      assert forall k :: 0 <= k < |r| ==> r[k] in s[1..];
      assert forall c :: c in s[1..] ==> c in s;
      r
    else s
  }

  /** `.replace(/\s+/g, "-")`: every maximal run of white space becomes one `-`. */
  function CollapseSpaces(s: string): (r: string)
    ensures forall k :: 0 <= k < |r| ==> !IsSpace(r[k])
    ensures r == [] <==> s == []
    ensures forall k :: 0 <= k < |r| && r[k] != '-' ==> r[k] in s
    decreases |s|
  {
    if s == [] then []
    else if IsSpace(s[0]) then
      var t := DropSpaces(s[1..]);
      var rest := CollapseSpaces(t);
      assert forall c :: c in t ==> c in s by {
        forall c | c in t ensures c in s {
          var k :| 0 <= k < |t| && t[k] == c;
          assert c in s[1..];
        }
      }
      "-" + rest
    else
      var rest := CollapseSpaces(s[1..]);
      assert forall c :: c in s[1..] ==> c in s;
      [s[0]] + rest
  }

  /** A blank run in front of a string that does not start with white
      space is dropped entirely. */
  lemma {:induction false} DropBlank(w: string, t: string)
    requires IsBlank(w)
    requires t == [] || !IsSpace(t[0])
    ensures DropSpaces(w + t) == t
  {
    if w == [] {
      assert w + t == t;
    } else {
      assert (w + t)[0] == w[0] && (w + t)[1..] == w[1..] + t;
      DropBlank(w[1..], t);
    }
  }

  /** A prefix without white space passes through `CollapseSpaces` unchanged. */
  lemma {:induction false} CollapsePrefix(x: string, t: string)
    requires forall k :: 0 <= k < |x| ==> !IsSpace(x[k])
    ensures CollapseSpaces(x + t) == x + CollapseSpaces(t)
  {
    if x == [] {
      assert x + t == t;
    } else {
      assert (x + t)[0] == x[0] && (x + t)[1..] == x[1..] + t;
      CollapsePrefix(x[1..], t);
      assert x == [x[0]] + x[1..];
    }
  }

  /** A maximal run of white space becomes exactly one `-`. */
  lemma CollapseRun(w: string, t: string)
    requires |w| > 0 && IsBlank(w)
    requires t == [] || !IsSpace(t[0])
    ensures CollapseSpaces(w + t) == "-" + CollapseSpaces(t)
  {
    var s := w + t;
    assert s[0] == w[0] && s[1..] == w[1..] + t;
    assert IsSpace(s[0]);
    assert DropSpaces(s[1..]) == t by {
      assert IsBlank(w[1..]) by {
        forall i | 0 <= i < |w[1..]| ensures IsSpace(w[1..][i]) {
          assert w[1..][i] == w[i + 1];
        }
      }
      DropBlank(w[1..], t);
    }
  }

  /** So two words separated by white space are joined by one `-`. */
  lemma CollapseWords(x: string, w: string, y: string)
    requires forall k :: 0 <= k < |x| ==> !IsSpace(x[k])
    requires forall k :: 0 <= k < |y| ==> !IsSpace(y[k])
    requires |w| > 0 && IsBlank(w)
    ensures CollapseSpaces(x + (w + y)) == x + ("-" + y)
  {
    CollapsePrefix(x, w + y);
    CollapseRunWord(w, y);
  }

  /** A blank run followed by a word becomes `-` and the word. */
  lemma CollapseRunWord(w: string, y: string)
    requires forall k :: 0 <= k < |y| ==> !IsSpace(y[k])
    requires |w| > 0 && IsBlank(w)
    ensures CollapseSpaces(w + y) == "-" + y
  {
    CollapseRun(w, y);
    CollapseNoSpace(y);
  }

  /** Text without white space is its own collapse. */
  lemma CollapseNoSpace(y: string)
    requires forall k :: 0 <= k < |y| ==> !IsSpace(y[k])
    ensures CollapseSpaces(y) == y
  {
    CollapsePrefix(y, []);
    assert y + [] == y;
  }

  /** `.replace(/[()]/g, "")`. */
  function RemoveParens(s: string): string {
    Seqs.Filter(s, (c: char) => c != '(' && c != ')')
  }

  /** The parenthesis removal in the name slug comes after the Latin filter
      has already removed every parenthesis, so it never changes anything. */
  lemma {:induction false} RemoveParensNoOp(s: string)
    requires forall k :: 0 <= k < |s| ==> IsSlugChar(s[k])
    ensures RemoveParens(s) == s
  {
    if s != [] {
      RemoveParensNoOp(s[1..]);
    }
  }

  /** A collapsed Latin slug only holds a-z, 0-9 and `-`. */
  lemma CollapsedIsSlug(s: string)
    requires forall k :: 0 <= k < |s| ==> IsSlugSource(s[k])
    ensures forall k :: 0 <= k < |CollapseSpaces(s)| ==> IsSlugChar(CollapseSpaces(s)[k])
  {
    var r := CollapseSpaces(s);
    forall k | 0 <= k < |r| ensures IsSlugChar(r[k]) {
      if r[k] != '-' {
        var j :| 0 <= j < |s| && s[j] == r[k];
      }
    }
  }

  /** `namePart` of generateId. */
  function NamePart(name: string): (r: string)
    ensures 1 <= |r| <= 20
    ensures forall k :: 0 <= k < |r| ==> IsSlugChar(r[k])
    ensures KeepSlugSource(Lower(name)) == [] ==> r == "cafe"
    ensures KeepSlugSource(Lower(name)) != [] ==> r == Take(CollapseSpaces(KeepSlugSource(Lower(name))), 20)
  {
    var kept := KeepSlugSource(Lower(name));
    var collapsed := CollapseSpaces(kept);
    CollapsedIsSlug(kept);
    RemoveParensNoOp(collapsed);
    var t := Take(RemoveParens(collapsed), 20);
    if t == "" then "cafe" else t
  }

  /** `cityPart` of generateId. */
  function CityPart(city: string): (r: string)
    ensures 1 <= |r| <= 15
    ensures forall k :: 0 <= k < |r| ==> IsSlugChar(r[k])
    ensures KeepSlugSource(Lower(city)) == [] ==> r == "city"
    ensures KeepSlugSource(Lower(city)) != [] ==> r == Take(CollapseSpaces(KeepSlugSource(Lower(city))), 15)
  {
    var kept := KeepSlugSource(Lower(city));
    CollapsedIsSlug(kept);
    var t := Take(CollapseSpaces(kept), 15);
    if t == "" then "city" else t
  }

  /** The string the hash visits: `${name}-${city}` as UTF-16 code units. */
  function HashInput(name: string, city: string): seq<int> {
    Utf16(name + "-" + city)
  }

  /** `s` has a `-` at two different positions. */
  predicate HasTwoDashes(s: string) {
    exists i, j :: 0 <= i < j < |s| && s[i] == '-' && s[j] == '-'
  }

  /** The ID `generateId(name, city)` returns: it starts with the name part
      and a `-`, has at least two `-` separators, and ends with `-` and the
      one to six base-36 digits that give back |hash|. */
  function IdOf(name: string, city: string): (id: string)
    ensures NamePart(name) + "-" <= id
    ensures HasTwoDashes(id)
    ensures var h := Hash(HashInput(name, city));
            var tail := HashStr(h);
            && 1 <= |tail| <= 6 && |tail| < |id|
            && id[|id| - |tail| - 1] == '-' && id[|id| - |tail|..] == tail
            && (forall k :: 0 <= k < |tail| ==> IsDigit36(tail[k]))
            && FromBase36(tail) == Abs(h)
  {
    var h := Hash(HashInput(name, city));
    var a, b, c := NamePart(name), CityPart(city), HashStr(h);
    HashStrExact(h);
    JoinedParts(a, b, c);
    a + "-" + b + "-" + c
  }

  /** Where the separators of `a-b-c` sit. */
  lemma JoinedParts(a: string, b: string, c: string)
    ensures var id := a + "-" + b + "-" + c;
            && a + "-" <= id && HasTwoDashes(id) && |c| < |id|
            && id[|id| - |c| - 1] == '-' && id[|id| - |c|..] == c
  {
    var id := a + "-" + b + "-" + c;
    assert id[|a|] == '-' && id[|a| + 1 + |b|] == '-';
    assert id[|id| - |c|..] == c;
  }

  /** So no generated ID is the hand-written key `"canopy-jerusalem"`,
      which has a single `-`. */
  lemma NeverCanopyLiteral(name: string, city: string)
    ensures IdOf(name, city) != "canopy-jerusalem"
  {
    var lit := "canopy-jerusalem";
    assert forall i :: 0 <= i < |lit| && lit[i] == '-' ==> i == 6;
    assert !HasTwoDashes(lit);
  }

  /** The hash of one more code unit is one more step. */
  lemma HashPrefixStep(us: seq<int>, i: int)
    requires 0 <= i < |us|
    ensures Hash(us[..i + 1]) == HashStep(Hash(us[..i]), us[i])
  {
    assert us[..i + 1][..i] == us[..i];
  }

  /** The hashing loop of `generateId` over the code units of `str`. */
  method HashLoop(str: seq<int>) returns (hash: int)
    ensures hash == Hash(str)
  {
    hash := 0;
    var i := 0;
    while i < |str|
      invariant 0 <= i <= |str|
      invariant hash == Hash(str[..i])
    {
      var c := str[i];
      HashPrefixStep(str, i);
      // `(hash << 5) - hash + char`, then `hash & hash`
      hash := ShiftLeft5(hash) - hash + c;
      hash := ToInt32(hash);
      i := i + 1;
    }
    assert str[..|str|] == str;
  }

  /** `generateId` (the same code in both catalog files): the rolling 32-bit
      hash over `${name}-${city}`, then the readable name and city parts and
      the base-36 hash. */
  method GenerateId(name: string, city: string) returns (id: string)
    ensures id == IdOf(name, city)
  {
    var hash := HashLoop(HashInput(name, city));
    var namePart := NamePart(name);
    var cityPart := CityPart(city);
    var hashStr := HashStr(hash);
    id := namePart + "-" + cityPart + "-" + hashStr;
  }
}
