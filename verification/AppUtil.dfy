/**
 * utils/AppUtil.ts: the runtime kind of a JavaScript value and `getId`,
 * which turns an id of any kind into the string form used as a key.
 */
module AppUtil {
  import opened Wrappers

  /**
   * A JavaScript value, as far as `typeof` distinguishes it. Numbers are
   * restricted to integers; every object, array, function or symbol is `Other`.
   */
  datatype JsValue =
    | Undefined
    | Null
    | Num(n: int)
    | Str(s: string)
    | Bool(b: bool)
    | Other

  /** JavaScript truthiness: what `!value` negates. */
  predicate Truthy(v: JsValue) {
    match v
    case Undefined => false
    case Null => false
    case Num(n) => n != 0
    case Str(s) => s != ""
    case Bool(b) => b
    case Other => true
  }

  /** The decimal digit for 0 <= d < 10. */
  function Digit(d: int): (c: char)
    requires 0 <= d < 10
    ensures '0' <= c <= '9'
  {
    "0123456789"[d]
  }

  /** `n.toString()` for a natural number: its shortest decimal form. */
  function NatToString(n: nat): (s: string)
    ensures |s| >= 1
    ensures forall i :: 0 <= i < |s| ==> '0' <= s[i] <= '9'
    ensures |s| > 1 ==> s[0] != '0'
    decreases n
  {
    if n < 10 then [Digit(n)] else NatToString(n / 10) + [Digit(n % 10)]
  }

  /** `Number.prototype.toString()` on an integer: decimal, with a leading '-' when negative. */
  function IntToString(n: int): (s: string)
    ensures |s| >= 1
    ensures (s[0] == '-') <==> n < 0
    ensures IsCanonicalInt(s)
  {
    if n < 0 then
      var t := NatToString(-n);
      assert ("-" + t)[1..] == t;
      "-" + t
    else NatToString(n)
  }

  /** Reads back a string of decimal digits. */
  function ParseNat(s: string): nat
    requires forall i :: 0 <= i < |s| ==> '0' <= s[i] <= '9'
  {
    if s == [] then 0 else 10 * ParseNat(s[..|s| - 1]) + (s[|s| - 1] as int - '0' as int)
  }

  /** A non-empty string of decimal digits with an optional leading '-'. */
  predicate IsDecimal(s: string) {
    |s| >= 1 && forall i :: (if s[0] == '-' then 1 else 0) <= i < |s| ==> '0' <= s[i] <= '9'
  }

  /** The shortest decimal form of a natural number: digits, with no leading zero. */
  predicate IsCanonicalNat(s: string) {
    && |s| >= 1
    && (forall i :: 0 <= i < |s| ==> '0' <= s[i] <= '9')
    && (|s| > 1 ==> s[0] != '0')
  }

  /** The form `toString` gives an integer: a canonical natural, or '-' and a non-zero one. */
  predicate IsCanonicalInt(s: string) {
    if |s| >= 1 && s[0] == '-' then IsCanonicalNat(s[1..]) && s[1..] != "0" else IsCanonicalNat(s)
  }

  /** Reads back a decimal integer with an optional leading '-'. */
  function ParseInt(s: string): int
    requires IsDecimal(s)
  {
    if s[0] == '-' then var m: int := ParseNat(s[1..]); -m else ParseNat(s)
  }

  lemma {:induction false} NatToStringRoundTrip(n: nat)
    ensures ParseNat(NatToString(n)) == n
    decreases n
  {
    var s := NatToString(n);
    if n < 10 {
      assert s[..|s| - 1] == [];
    } else {
      NatToStringRoundTrip(n / 10);
      assert s[..|s| - 1] == NatToString(n / 10);
      assert s[|s| - 1] == Digit(n % 10);
    }
  }

  /** The decimal string of an integer reads back as the same integer. */
  lemma IntToStringRoundTrip(n: int)
    ensures IsDecimal(IntToString(n)) && ParseInt(IntToString(n)) == n
  {
    if n < 0 {
      var t := NatToString(-n);
      assert IntToString(n) == "-" + t;
      NegatedDigits(t);
      NatToStringRoundTrip(-n);
    } else {
      var t := NatToString(n);
      assert IntToString(n) == t;
      PlainDigits(t);
      NatToStringRoundTrip(n);
    }
  }

  lemma ParseNatPositive(s: string)
    requires IsCanonicalNat(s) && s[0] != '0'
    ensures ParseNat(s) >= 1
    decreases |s|
  {
    if |s| > 1 {
      ParseNatPositive(s[..|s| - 1]);
    }
  }

  /** A canonical string of digits is the decimal string of the number it reads as. */
  lemma {:induction false} CanonicalNatUnique(s: string)
    requires IsCanonicalNat(s)
    ensures NatToString(ParseNat(s)) == s
    decreases |s|
  {
    var init := s[..|s| - 1];
    var d := s[|s| - 1] as int - '0' as int;
    assert Digit(d) == s[|s| - 1];
    var n := ParseNat(s);
    assert n == 10 * ParseNat(init) + d;
    if |s| == 1 {
      assert init == [];
      assert NatToString(n) == [Digit(d)];
    } else {
      var m := ParseNat(init);
      ParseNatPositive(init);
      CanonicalNatUnique(init);
      assert n / 10 == m && n % 10 == d;
      assert NatToString(n) == NatToString(m) + [Digit(d)];
      assert s == init + [s[|s| - 1]];
    }
  }

  /** '-' before a string of digits is a decimal that reads as the negated number. */
  lemma NegatedDigits(t: string)
    requires IsCanonicalNat(t)
    ensures IsDecimal("-" + t) && ("-" + t)[1..] == t && ParseInt("-" + t) == -(ParseNat(t) as int)
  {
    assert ("-" + t)[1..] == t;
  }

  /** A string of digits is a decimal that reads as the same number. */
  lemma PlainDigits(t: string)
    requires IsCanonicalNat(t)
    ensures IsDecimal(t) && ParseInt(t) == ParseNat(t)
  {
  }

  /** Canonical decimals are unique: the one that reads as `ParseInt(s)` is `s` itself. */
  lemma CanonicalIntUnique(s: string)
    requires IsCanonicalInt(s)
    ensures IsDecimal(s) && IntToString(ParseInt(s)) == s
  {
    if s[0] == '-' {
      var t := s[1..];
      assert s == "-" + t;
      NegatedDigits(t);
      assert t[0] != '0' by {
        if |t| == 1 { assert t == [t[0]]; }
      }
      ParseNatPositive(t);
      var m: int := ParseNat(t);
      CanonicalNatUnique(t);
      assert IntToString(-m) == "-" + NatToString(m);
    } else {
      CanonicalNatUnique(s);
    }
  }

  /**
   * `getId(id)`: '' for undefined and null, a string unchanged, a number as
   * its decimal string, and undefined (`None`) for every other kind.
   */
  function GetId(id: JsValue): (r: Option<string>)
    ensures (id.Undefined? || id.Null?) ==> r == Some("")
    ensures id.Str? ==> r == Some(id.s)
    ensures id.Num? ==> r.Some? && IsCanonicalInt(r.value) && IsDecimal(r.value) && ParseInt(r.value) == id.n
    ensures r.None? <==> (id.Bool? || id.Other?)
  {
    match id
    case Undefined => Some("")
    case Null => Some("")
    case Str(s) => Some(s)
    case Num(n) => IntToStringRoundTrip(n); Some(IntToString(n))
    case _ => None
  }
}
