/** The avalanche summary's `DangerLevel` arrives as a number, a numeric
    string, or not at all. Two of the scripts normalise it differently:

    - analyze_avalanche_attributes.py converts a string with `int()` and skips
      the warning when `int()` or the comparison with 0 raises;
    - test_avalanche_attributes.py and validate_avalanche_changes.py convert a
      string with `int()` only when `str.isdigit()` holds and use 0 otherwise;
      a value that cannot be compared with 0 raises out of the whole scan.

    Both are modelled as a level, or None where the source's comparison does
    not produce one. */
module DangerLevel {
  import opened Json
  import opened Text

  /** Python's `str.isdigit()`, for ASCII text: non-empty and digits only. */
  predicate IsDigitString(s: string)
  {
    |s| > 0 && forall i :: 0 <= i < |s| ==> IsDigit(s[i])
  }

  /** The number a string of decimal digits denotes. */
  function DigitsValue(d: string): (r: int)
    requires forall i :: 0 <= i < |d| ==> IsDigit(d[i])
    ensures r >= 0
    ensures d == [] ==> r == 0
  {
    if d == [] then 0
    else
      var last := d[|d| - 1];
      assert IsDigit(last);
      DigitsValue(d[..|d| - 1]) * 10 + (last as int - '0' as int)
  }

  /** The ASCII characters `str.isspace()` accepts, which `int()` ignores
      around its argument: tab, line feed, vertical tab, form feed, carriage
      return, the four information separators 0x1C-0x1F, and space. */
  predicate IsSpace(c: char)
  {
    (9 <= c as int <= 13) || (28 <= c as int <= 32)
  }

  function StripLeft(s: string): (r: string)
    ensures r != [] ==> !IsSpace(r[0])
  {
    if s != [] && IsSpace(s[0]) then StripLeft(s[1..]) else s
  }

  function StripRight(s: string): (r: string)
    ensures r != [] ==> !IsSpace(r[|r| - 1])
  {
    if s != [] && IsSpace(s[|s| - 1]) then StripRight(s[..|s| - 1]) else s
  }

  /** The digit part `int()` accepts in base 10: digits, where single
      underscores may separate two digits. */
  predicate UnderscoredDigits(u: string)
  {
    && |u| > 0
    && IsDigit(u[0])
    && forall i :: 0 <= i < |u| ==> DigitOrJoin(u, i)
  }

  /** Position `i` of `u` holds a digit, or an underscore followed by one. */
  predicate DigitOrJoin(u: string, i: int)
    requires 0 <= i < |u|
  {
    IsDigit(u[i]) || (u[i] == '_' && i + 1 < |u| && IsDigit(u[i + 1]))
  }

  function WithoutUnderscores(u: string): (r: string)
    ensures (forall i :: 0 <= i < |u| ==> IsDigit(u[i]) || u[i] == '_') ==>
      forall j :: 0 <= j < |r| ==> IsDigit(r[j])
  {
    if u == [] then []
    else (if u[0] == '_' then [] else [u[0]]) + WithoutUnderscores(u[1..])
  }

  /** Python's `int(s)` for a string, base 10: surrounding whitespace, an
      optional sign, then digits with single underscores between them.
      None stands for the ValueError. */
  function ParseInt(s: string): (r: Option<int>)
  {
    ParseSigned(StripRight(StripLeft(s)))
  }

  /** `int()` after the whitespace is gone: an optional sign, then digits. */
  function ParseSigned(t: string): (r: Option<int>)
  {
    if |t| > 0 && (t[0] == '+' || t[0] == '-') then
      match ParseDigits(t[1..])
      case Some(n) => Some(if t[0] == '-' then -n else n)
      case None => None
    else ParseDigits(t)
  }

  /** The unsigned digit part; None when it is not well formed. */
  function ParseDigits(u: string): (r: Option<int>)
    ensures r.Some? <==> UnderscoredDigits(u)
    ensures r.Some? ==> r.value >= 0
  {
    if UnderscoredDigits(u) then
      UnderscoredDigitsChars(u);
      Some(DigitsValue(WithoutUnderscores(u)))
    else None
  }

  lemma UnderscoredDigitsChars(u: string)
    requires UnderscoredDigits(u)
    ensures forall i :: 0 <= i < |u| ==> IsDigit(u[i]) || u[i] == '_'
  {
    forall i | 0 <= i < |u| ensures IsDigit(u[i]) || u[i] == '_' {
      assert DigitOrJoin(u, i);
    }
  }

  /** The level analyze_avalanche_attributes.py:40-48 compares with 0: a
      missing key reads as 0, a string goes through `int()`, booleans compare
      as 0 and 1. None: `int()` or the comparison raised and the warning is
      skipped. */
  function LevelByInt(v: Option<Json>): (r: Option<int>)
    ensures v.None? ==> r == Some(0)
    ensures v.Some? && v.value.Int? ==> r == Some(v.value.n)
    ensures r.None? <==> v.Some? && !v.value.Int? && !v.value.Bool? &&
                         (v.value.Str? ==> ParseInt(v.value.s).None?)
  {
    match v
    case None => Some(0)
    case Some(Int(n)) => Some(n)
    case Some(Bool(b)) => Some(if b then 1 else 0)
    case Some(Str(s)) => ParseInt(s)
    case Some(_) => None
  }

  /** The level test_avalanche_attributes.py:37-40 and
      validate_avalanche_changes.py:29-32 compare with 0: a missing key reads
      as 0, a string is `int(s)` when `s.isdigit()` and 0 otherwise. None: the
      value is null, a list or a dict, and the comparison raises TypeError. */
  function LevelByIsDigit(v: Option<Json>): (r: Option<int>)
    ensures v.None? ==> r == Some(0)
    ensures v.Some? && v.value.Str? ==> r.Some? && r.value >= 0
    ensures v.Some? && v.value.Str? && !IsDigitString(v.value.s) ==> r == Some(0)
    ensures r.None? <==> v.Some? && (v.value.Null? || v.value.Arr? || v.value.Obj?)
  {
    match v
    case None => Some(0)
    case Some(Int(n)) => Some(n)
    case Some(Bool(b)) => Some(if b then 1 else 0)
    case Some(Str(s)) => Some(if IsDigitString(s) then DigitsValue(s) else 0)
    case Some(_) => None
  }

  /** A warning counts as active when its level is above 0. */
  predicate Active(level: Option<int>)
  {
    level.Some? && level.value > 0
  }

  lemma {:induction false} DigitsHaveNoUnderscores(s: string)
    requires forall i :: 0 <= i < |s| ==> IsDigit(s[i])
    ensures WithoutUnderscores(s) == s
  {
    if s != [] {
      DigitsHaveNoUnderscores(s[1..]);
      assert s == [s[0]] + s[1..];
    }
  }

  /** `int(s)` on a string that `isdigit` accepts gives its digit value. */
  lemma ParseIntOfDigitString(s: string)
    requires IsDigitString(s)
    ensures ParseInt(s) == Some(DigitsValue(s))
  {
    assert StripLeft(s) == s;
    assert StripRight(s) == s;
    DigitsHaveNoUnderscores(s);
  }

  /** The two normalisations agree on everything that is not a string, and on
      strings of digits. */
  lemma LevelsAgree(v: Option<Json>)
    requires v.None? || v.value.Int? || v.value.Bool? ||
             (v.value.Str? && IsDigitString(v.value.s))
    ensures LevelByInt(v) == LevelByIsDigit(v)
  {
    if v.Some? && v.value.Str? {
      ParseIntOfDigitString(v.value.s);
    }
  }

  /** A warning the isdigit scripts treat as active is active, at the same
      level, for analyze_avalanche_attributes.py too. */
  lemma IsDigitActiveIsIntActive(v: Option<Json>)
    requires Active(LevelByIsDigit(v))
    ensures LevelByInt(v) == LevelByIsDigit(v)
  {
    if v.Some? && v.value.Str? {
      ParseIntOfDigitString(v.value.s);
    }
  }

  /** The converse fails: " 3" is level 3 for `int()` and 0 for `isdigit`. */
  lemma PaddedDigitDisagrees()
    ensures LevelByInt(Some(Str(" 3"))) == Some(3)
    ensures LevelByIsDigit(Some(Str(" 3"))) == Some(0)
  {
    assert " 3"[1..] == "3";
    assert StripLeft(" 3") == "3";
    assert StripRight("3") == "3";
    assert !IsDigit(" 3"[0]);
    ParseDigitsSingle('3');
  }

  /** An information separator is whitespace to `int()`: "\x1c3" is level 3
      there, and level 0 under `isdigit`. */
  lemma SeparatorPaddedLevel()
    ensures LevelByInt(Some(Str("\U{1C}3"))) == Some(3)
    ensures LevelByIsDigit(Some(Str("\U{1C}3"))) == Some(0)
  {
    var t := "\U{1C}3";
    assert IsSpace(t[0]) && !IsSpace(t[1]) && !IsDigit(t[0]);
    assert t[1..] == "3";
    assert StripLeft(t) == "3";
    assert StripRight("3") == "3";
    ParseDigitsSingle('3');
  }

  lemma ParseDigitsSingle(c: char)
    requires IsDigit(c)
    ensures ParseDigits([c]) == Some(c as int - '0' as int)
  {
    assert UnderscoredDigits([c]);
    assert WithoutUnderscores([c]) == [c] by {
      assert WithoutUnderscores([c]) == [c] + WithoutUnderscores([]);
    }
    assert DigitsValue([c]) == c as int - '0' as int by {
      assert [c][..0] == [];
    }
  }

  /** The sample inputs 3, "3", "abc", "-1", "" and 0 normalise to 3, 3, 0, 0,
      0 and 0 under `isdigit`; a JSON null has no level there: the comparison
      raises. */
  lemma SampleLevelsByIsDigit()
    ensures LevelByIsDigit(Some(Int(3))) == Some(3)
    ensures LevelByIsDigit(Some(Str("3"))) == Some(3)
    ensures LevelByIsDigit(Some(Str("abc"))) == Some(0)
    ensures LevelByIsDigit(Some(Str("-1"))) == Some(0)
    ensures LevelByIsDigit(Some(Str(""))) == Some(0)
    ensures LevelByIsDigit(Some(Int(0))) == Some(0)
    ensures LevelByIsDigit(Some(Null)) == None
  {
    assert IsDigitString("3");
    assert DigitsValue("3") == 3 by {
      assert "3"[..0] == "";
    }
    assert !IsDigit("abc"[0]) && !IsDigit("-1"[0]);
  }

  /** Under `int()` the same null is skipped, as is "abc"; "-1" is level -1,
      and so not active either. */
  lemma SampleLevelsByInt()
    ensures LevelByInt(Some(Null)) == None
    ensures LevelByInt(Some(Str("abc"))) == None
    ensures LevelByInt(Some(Str("-1"))) == Some(-1)
  {
    assert StripLeft("abc") == "abc" && StripRight("abc") == "abc";
    assert !IsDigit("abc"[0]);
    assert StripLeft("-1") == "-1" && StripRight("-1") == "-1";
    assert "-1"[1..] == "1";
    ParseDigitsSingle('1');
  }
}
