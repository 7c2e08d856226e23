/** The few JavaScript string behaviours the application relies on: truthiness
    of an optional string, `toLowerCase`, `includes`, `startsWith`, `trim`, the
    default code-unit order used by `Array.prototype.sort`, and decimal
    rendering of counts inside template literals. */
module Text {
  import opened Wrappers

  // ---------------------------------------------------------------------------
  // Truthiness

  /** A JavaScript string value is truthy when it is present and non-empty. */
  predicate Truthy(s: Option<string>) {
    s.Some? && s.value != ""
  }

  /** `a || b` for optional strings. */
  function Or(a: Option<string>, b: Option<string>): Option<string> {
    if Truthy(a) then a else b
  }

  /** `a || fallback` where the fallback is a literal string. */
  function OrElse(a: Option<string>, fallback: string): string {
    if Truthy(a) then a.value else fallback
  }

  /** How a possibly-undefined value is rendered by a template literal. */
  function Render(a: Option<string>): string {
    match a
    case Some(s) => s
    case None => "undefined"
  }

  // ---------------------------------------------------------------------------
  // Case and substrings

  function LowerChar(c: char): char {
    if 'A' <= c <= 'Z' then (c as int + 32) as char else c
  }

  /** `toLowerCase`, restricted to the ASCII letters. */
  function Lower(s: string): (r: string)
    ensures |r| == |s|
    ensures forall i :: 0 <= i < |s| ==> r[i] == LowerChar(s[i])
  {
    if s == [] then [] else [LowerChar(s[0])] + Lower(s[1..])
  }

  predicate StartsWith(s: string, prefix: string) {
    |prefix| <= |s| && s[..|prefix|] == prefix
  }

  /** `s.includes(t)`: `t` occurs as a contiguous substring of `s`. */
  predicate Contains(s: string, t: string) {
    exists i | 0 <= i <= |s| :: StartsWith(s[i..], t)
  }

  lemma ContainsEmpty(s: string)
    ensures Contains(s, "")
  {
    assert StartsWith(s[0..], "");
  }

  // ---------------------------------------------------------------------------
  // trim

  /** The WhiteSpace and LineTerminator code points that `String.prototype.trim`
      removes (section 22.1.3.32 of ECMA-262). */
  predicate IsSpace(c: char) {
    var u := c as int;
    || 0x09 <= u <= 0x0D || u == 0x20 || u == 0xA0 || u == 0x1680
    || 0x2000 <= u <= 0x200A || u == 0x2028 || u == 0x2029 || u == 0x202F
    || u == 0x205F || u == 0x3000 || u == 0xFEFF
  }

  predicate AllSpace(s: string) {
    forall i :: 0 <= i < |s| ==> IsSpace(s[i])
  }

  function TrimStart(s: string): (r: string)
    ensures |r| <= |s| && r == s[|s| - |r|..]
    ensures AllSpace(s[..|s| - |r|])
    ensures r != [] ==> !IsSpace(r[0])
  {
    if s != [] && IsSpace(s[0]) then
      var r := TrimStart(s[1..]);
      DropFirst(s, |r|);
      r
    else s
  }

  function TrimEnd(s: string): (r: string)
    ensures |r| <= |s| && r == s[..|r|]
    ensures AllSpace(s[|r|..])
    ensures r != [] ==> !IsSpace(r[|r| - 1])
  {
    if s != [] && IsSpace(s[|s| - 1]) then
      var r := TrimEnd(s[..|s| - 1]);
      assert s[..|s| - 1][|r|..] == s[|r|..|s| - 1];
      r
    else s
  }

  /** Dropping a leading space character before cutting `s[1..]` in two. */
  lemma DropFirst(s: string, k: nat)
    requires s != [] && IsSpace(s[0]) && k < |s|
    requires AllSpace(s[1..][..|s| - 1 - k])
    ensures s[1..][|s| - 1 - k..] == s[|s| - k..]
    ensures AllSpace(s[..|s| - k])
  {
    var t := s[1..][..|s| - 1 - k];
    var front := s[..|s| - k];
    assert front == [s[0]] + t;
    forall i | 0 <= i < |front| ensures IsSpace(front[i]) {
      if i > 0 {
        assert front[i] == t[i - 1];
      }
    }
  }

  /** `String.prototype.trim`. */
  function Trim(s: string): string {
    TrimEnd(TrimStart(s))
  }

  /** `trim` removes only surrounding white space: the input is the result
      framed by two runs of white space. */
  lemma TrimFrames(s: string)
    ensures exists i, j :: 0 <= i <= j <= |s| && Trim(s) == s[i..j]
                           && AllSpace(s[..i]) && AllSpace(s[j..])
  {
    var t := TrimStart(s);
    var e := TrimEnd(t);
    var i := |s| - |t|;
    var j := i + |e|;
    assert t == s[i..];
    assert e == s[i..j] by {
      assert e == t[..|e|] && s[i..][..|e|] == s[i..j];
    }
    assert s[j..] == t[|e|..];
    assert Trim(s) == s[i..j] && AllSpace(s[..i]) && AllSpace(s[j..]);
  }

  /** The result of `trim` neither starts nor ends with white space. */
  lemma TrimmedEnds(s: string)
    ensures Trim(s) != [] ==> !IsSpace(Trim(s)[0]) && !IsSpace(Trim(s)[|Trim(s)| - 1])
  {
    var t := TrimStart(s);
    var e := TrimEnd(t);
    if e != [] {
      assert e[0] == t[0];
    }
  }

  /** A trimmed input is empty exactly when the input is nothing but white
      space; this is what the form validations test with `!name`. */
  lemma TrimEmptyIffAllSpace(s: string)
    ensures Trim(s) == "" <==> AllSpace(s)
  {
    TrimFrames(s);
  }

  // ---------------------------------------------------------------------------
  // Default sort order

  /** `a <= b` in JavaScript's default string comparison: lexicographic on
      characters, a proper prefix first. */
  predicate StrLe(a: string, b: string)
  {
    if a == [] then true
    else if b == [] then false
    else if a[0] != b[0] then a[0] < b[0]
    else StrLe(a[1..], b[1..])
  }

  lemma {:induction false} StrLeTotal(a: string, b: string)
    ensures StrLe(a, b) || StrLe(b, a)
  {
    if a != [] && b != [] && a[0] == b[0] {
      StrLeTotal(a[1..], b[1..]);
    }
  }

  lemma {:induction false} StrLeTransitive(a: string, b: string, c: string)
    requires StrLe(a, b) && StrLe(b, c)
    ensures StrLe(a, c)
  {
    if a != [] && b != [] && c != [] && a[0] == b[0] && b[0] == c[0] {
      StrLeTransitive(a[1..], b[1..], c[1..]);
    }
  }

  lemma {:induction false} StrLeAntisymmetric(a: string, b: string)
    requires StrLe(a, b) && StrLe(b, a)
    ensures a == b
  {
    if a != [] && b != [] {
      StrLeAntisymmetric(a[1..], b[1..]);
      assert a == [a[0]] + a[1..];
      assert b == [b[0]] + b[1..];
    }
  }

  // ---------------------------------------------------------------------------
  // Decimal numbers

  function DigitChar(d: nat): char
    requires d < 10
  {
    "0123456789"[d]
  }

  /** Decimal rendering of a non-negative integer, as a template literal does. */
  function NatToString(n: nat): (r: string)
    ensures r != []
    ensures forall i :: 0 <= i < |r| ==> '0' <= r[i] <= '9'
  {
    if n < 10 then [DigitChar(n)] else NatToString(n / 10) + [DigitChar(n % 10)]
  }

  /** The value of a string of decimal digits. */
  function DigitsValue(s: string): nat
    requires forall i :: 0 <= i < |s| ==> '0' <= s[i] <= '9'
  {
    if s == [] then 0 else DigitsValue(s[..|s| - 1]) * 10 + (s[|s| - 1] as int - '0' as int)
  }

  /** Reading the rendered digits back yields the number: the rendering loses
      nothing. */
  lemma {:induction false} NatToStringRoundTrip(n: nat)
    ensures DigitsValue(NatToString(n)) == n
  {
    if n >= 10 {
      NatToStringRoundTrip(n / 10);
      var s := NatToString(n);
      assert s[..|s| - 1] == NatToString(n / 10);
    }
  }

  /** Distinct numbers render differently. */
  lemma NatToStringInjective(m: nat, n: nat)
    requires NatToString(m) == NatToString(n)
    ensures m == n
  {
    NatToStringRoundTrip(m);
    NatToStringRoundTrip(n);
  }
}
