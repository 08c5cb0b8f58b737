/** The lexeme tests of src/json_reader.rs (`is_int`, `is_float`, `is_bool`,
    `is_json_object`, `is_json_arr`), the order in which `read` tries them,
    and the character-level helpers the reader relies on: Rust's notion of
    whitespace, `str::trim` and `str::replace("\"", "")`. */
module Lexemes {
  import opened JsonValues

  /** Rust's `char::is_whitespace`: the Unicode White_Space property. */
  predicate IsWhitespace(c: char)
  {
    var n := c as int;
    (0x09 <= n <= 0x0D) || n == 0x20 || n == 0x85 || n == 0xA0 || n == 0x1680 ||
    (0x2000 <= n <= 0x200A) || n == 0x2028 || n == 0x2029 || n == 0x202F ||
    n == 0x205F || n == 0x3000
  }

  /** The two characters that open a quoted region for the splitters. */
  predicate IsQuote(c: char)
  {
    c == '"' || c == '\''
  }

  predicate IsDigit(c: char)
  {
    '0' <= c <= '9'
  }

  predicate AllDigits(s: string)
  {
    forall i :: 0 <= i < |s| ==> IsDigit(s[i])
  }

  /** A non-empty run of ASCII digits. */
  predicate IsDigitRun(s: string)
  {
    |s| >= 1 && AllDigits(s)
  }

  function StripSign(s: string): string
  {
    if |s| > 0 && (s[0] == '+' || s[0] == '-') then s[1..] else s
  }

  /** The value of a run of decimal digits, most significant first. */
  function DigitsValue(s: string): nat
    requires AllDigits(s)
  {
    if s == [] then 0 else 10 * DigitsValue(s[..|s| - 1]) + (s[|s| - 1] as int - '0' as int)
  }

  /** The shortest decimal digits of `n`; the reference that `DigitsValue` inverts. */
  function Decimal(n: nat): (s: string)
    ensures IsDigitRun(s)
  {
    var d := [('0' as int + n % 10) as char];
    if n < 10 then d else Decimal(n / 10) + d
  }

  lemma {:induction false} DigitsValueOfDecimal(n: nat)
    ensures DigitsValue(Decimal(n)) == n
  {
    var d := [('0' as int + n % 10) as char];
    if n >= 10 {
      var s := Decimal(n / 10) + d;
      assert s[..|s| - 1] == Decimal(n / 10);
      DigitsValueOfDecimal(n / 10);
    }
  }

  /** The grammar of Rust's integer `from_str` in radix 10: an optional `+`
      or `-`, then at least one ASCII digit. The value is unbounded here;
      the range check is the caller's. */
  function ParseInteger(s: string): Option<int>
  {
    var u := StripSign(s);
    if IsDigitRun(u) then
      var n: int := DigitsValue(u);
      Some(if s[0] == '-' then -n else n)
    else
      None
  }

  /** The decimal text of an integer, with a leading `-` when negative. */
  function Render(n: int): (s: string)
    ensures |s| >= 1
  {
    if n < 0 then "-" + Decimal(-n) else Decimal(n)
  }

  /** Parsing inverts rendering, for every integer. */
  lemma {:induction false} RenderThenParse(n: int)
    ensures ParseInteger(Render(n)) == Some(n)
  {
    if n < 0 {
      assert StripSign(Render(n)) == Decimal(-n);
      DigitsValueOfDecimal(-n);
    } else {
      DigitsValueOfDecimal(n);
    }
  }

  /** `is_int`: `s.parse::<i64>().is_ok()`. */
  predicate IsInt(s: string)
  {
    var v := ParseInteger(s);
    v.Some? && I64_MIN <= v.value <= I64_MAX
  }

  /** The integer of an `is_int` lexeme; `parse::<i32>` succeeds exactly when it
      lies in the i32 range. */
  function IntValue(s: string): int
    requires IsInt(s)
  {
    ParseInteger(s).value
  }

  function LowerChar(c: char): char
  {
    if 'A' <= c <= 'Z' then (c as int + 32) as char else c
  }

  function AsciiLower(s: string): (r: string)
    ensures |r| == |s|
  {
    seq(|s|, i requires 0 <= i < |s| => LowerChar(s[i]))
  }

  function IndexOf(s: string, c: char): (i: nat)
    ensures i <= |s|
    ensures i < |s| ==> s[i] == c
    ensures forall j :: 0 <= j < i ==> s[j] != c
  {
    if s == [] then 0 else if s[0] == c then 0 else 1 + IndexOf(s[1..], c)
  }

  /** `Digit+ | Digit+ '.' Digit* | Digit* '.' Digit+`. */
  predicate IsMantissa(m: string)
  {
    var d := IndexOf(m, '.');
    if d == |m| then IsDigitRun(m)
    else |m| >= 2 && AllDigits(m[..d]) && AllDigits(m[d + 1..])
  }

  /** `('e' Sign? Digit+)?`, already lower-cased. */
  predicate IsExponent(x: string)
  {
    x == [] || (x[0] == 'e' && IsDigitRun(StripSign(x[1..])))
  }

  predicate IsDecimalNumber(t: string)
  {
    var e := IndexOf(t, 'e');
    IsMantissa(t[..e]) && IsExponent(t[e..])
  }

  /** `is_float`: `s.parse::<f64>().is_ok()`, i.e. Rust's documented grammar
      `Sign? ('inf' | 'infinity' | 'nan' | Number)`, matched case-insensitively. */
  predicate IsFloat(s: string)
  {
    IsFloatText(AsciiLower(StripSign(s)))
  }

  /** The lower-cased, unsigned part of a float lexeme. */
  predicate IsFloatText(t: string)
  {
    IsKeyword(t) || IsDecimalNumber(t)
  }

  predicate IsKeyword(t: string)
  {
    t == "inf" || t == "infinity" || t == "nan"
  }

  /** `is_bool`: `s.parse::<bool>().is_ok()`. */
  predicate IsBool(s: string)
  {
    s == "true" || s == "false"
  }

  /** `is_json_object`: wrapped in `'{` and `}'`. Such a lexeme has at least
      four characters, so cutting one from each end is safe. */
  predicate IsJsonObject(s: string): (b: bool)
    ensures b ==> |s| >= 4 && s[0] == '\'' && s[1] == '{'
  {
    |s| >= 2 && s[0] == '\'' && s[1] == '{' && s[|s| - 2] == '}' && s[|s| - 1] == '\''
  }

  /** `is_json_arr`: wrapped in `'[` and `]'`; at least four characters, so
      cutting two from each end is safe. */
  predicate IsJsonArr(s: string): (b: bool)
    ensures b ==> |s| >= 4 && s[0] == '\'' && s[1] == '['
  {
    |s| >= 2 && s[0] == '\'' && s[1] == '[' && s[|s| - 2] == ']' && s[|s| - 1] == '\''
  }

  // ---------------------------------------------------------------------
  // Which characters a float lexeme can hold.

  predicate LowerFloatChar(c: char)
  {
    IsDigit(c) || c in "+-.einfaty"
  }

  predicate FloatChar(c: char)
  {
    LowerFloatChar(LowerChar(c))
  }

  lemma {:induction false} MantissaAlphabet(m: string)
    requires IsMantissa(m)
    ensures forall i :: 0 <= i < |m| ==> LowerFloatChar(m[i])
  {
    var d := IndexOf(m, '.');
    if d < |m| {
      forall i | 0 <= i < |m| ensures LowerFloatChar(m[i]) {
        if i < d {
          assert m[i] == m[..d][i];
        } else if i > d {
          assert m[i] == m[d + 1..][i - d - 1];
        }
      }
    }
  }

  lemma {:induction false} ExponentAlphabet(x: string)
    requires IsExponent(x)
    ensures forall i :: 0 <= i < |x| ==> LowerFloatChar(x[i])
  {
    if x != [] {
      var t := x[1..];
      var u := StripSign(t);
      forall i | 0 <= i < |x| ensures LowerFloatChar(x[i]) {
        if i > 0 {
          if |t| > 0 && (t[0] == '+' || t[0] == '-') {
            if i > 1 {
              assert x[i] == u[i - 2];
            }
          } else {
            assert x[i] == u[i - 1];
          }
        }
      }
    }
  }

  lemma {:induction false} DecimalNumberAlphabet(t: string)
    requires IsDecimalNumber(t)
    ensures forall i :: 0 <= i < |t| ==> LowerFloatChar(t[i])
  {
    var e := IndexOf(t, 'e');
    MantissaAlphabet(t[..e]);
    ExponentAlphabet(t[e..]);
    forall i | 0 <= i < |t| ensures LowerFloatChar(t[i]) {
      if i < e {
        assert t[i] == t[..e][i];
      } else {
        assert t[i] == t[e..][i - e];
      }
    }
  }

  lemma {:induction false} KeywordAlphabet(t: string)
    requires IsKeyword(t)
    ensures forall i :: 0 <= i < |t| ==> LowerFloatChar(t[i])
  {
  }

  /** Every character of a float lexeme is a digit, a sign, a dot, or one
      of the letters of `e`, `inf`, `infinity`, `nan` in either case. */
  lemma {:induction false} FloatAlphabet(s: string)
    ensures IsFloat(s) ==> forall i :: 0 <= i < |s| ==> FloatChar(s[i])
  {
    if IsFloat(s) {
      var u := StripSign(s);
      var t := AsciiLower(u);
      if IsKeyword(t) {
        KeywordAlphabet(t);
      } else {
        DecimalNumberAlphabet(t);
      }
      LoweredAlphabet(u);
      SignedAlphabet(s);
    }
  }

  /** A text whose lower-cased form holds only float characters holds only
      float characters. */
  lemma {:induction false} LoweredAlphabet(u: string)
    requires forall i :: 0 <= i < |u| ==> LowerFloatChar(AsciiLower(u)[i])
    ensures forall i :: 0 <= i < |u| ==> FloatChar(u[i])
  {
    forall i | 0 <= i < |u| ensures FloatChar(u[i]) {
      assert AsciiLower(u)[i] == LowerChar(u[i]);
    }
  }

  /** A sign in front of float characters keeps them float characters. */
  lemma {:induction false} SignedAlphabet(s: string)
    requires forall i :: 0 <= i < |StripSign(s)| ==> FloatChar(StripSign(s)[i])
    ensures forall i :: 0 <= i < |s| ==> FloatChar(s[i])
  {
    var u := StripSign(s);
    var off := |s| - |u|;
    forall i | 0 <= i < |s| ensures FloatChar(s[i]) {
      if i >= off {
        assert s[i] == u[i - off];
      }
    }
  }

  /** A float lexeme holds no quote character. */
  lemma {:induction false} FloatHasNoQuote(s: string)
    requires IsFloat(s)
    ensures '"' !in s && '\'' !in s
  {
    FloatAlphabet(s);
    forall i | 0 <= i < |s| ensures s[i] != '"' && s[i] != '\'' {
      assert FloatChar(s[i]);
    }
  }

  /** Every `is_int` lexeme also passes `is_float`: this is why `read` must
      try integers first, so that `5` is an integer and `5.0` a float. */
  lemma {:induction false} IntIsFloat(s: string)
    requires IsInt(s)
    ensures IsFloat(s)
  {
    var u := StripSign(s);
    var t := AsciiLower(u);
    assert t == u;
    assert IndexOf(t, '.') == |t|;
    assert IndexOf(t, 'e') == |t|;
    assert t[..|t|] == t;
  }

  lemma {:induction false} BoolIsNotFloat(s: string)
    requires IsBool(s)
    ensures !IsFloat(s)
  {
    FloatAlphabet(s);
    if s == "true" {
      assert !FloatChar(s[1]);
    } else {
      assert !FloatChar(s[2]);
    }
  }

  lemma {:induction false} QuotedIsNotFloat(s: string)
    requires |s| > 0 && IsQuote(s[0])
    ensures !IsFloat(s)
  {
    FloatAlphabet(s);
    assert !FloatChar(s[0]);
  }

  /** The tests overlap only where an integer is also a float. */
  lemma {:induction false} KindsDisjoint(s: string)
    ensures IsInt(s) ==> IsFloat(s)
    ensures IsBool(s) ==> !IsFloat(s) && !IsJsonObject(s) && !IsJsonArr(s)
    ensures IsJsonObject(s) ==> !IsFloat(s) && !IsJsonArr(s)
    ensures IsJsonArr(s) ==> !IsFloat(s)
    ensures |s| > 0 && IsQuote(s[0]) ==> !IsFloat(s) && !IsInt(s)
  {
    if IsInt(s) {
      IntIsFloat(s);
    }
    if IsBool(s) {
      BoolIsNotFloat(s);
    }
    if |s| > 0 && IsQuote(s[0]) {
      QuotedIsNotFloat(s);
    }
  }

  // ---------------------------------------------------------------------
  // Classification order.

  /** What `read` makes of a lexeme that is not a separator. */
  datatype LexemeKind = IntLexeme | FloatLexeme | BoolLexeme | ObjectLexeme | ArrayLexeme | StringLexeme

  /** Whether the test for kind `k` accepts `s`; every lexeme may be read as a string. */
  predicate Accepts(k: LexemeKind, s: string)
  {
    match k
    case IntLexeme => IsInt(s)
    case FloatLexeme => IsFloat(s)
    case BoolLexeme => IsBool(s)
    case ObjectLexeme => IsJsonObject(s)
    case ArrayLexeme => IsJsonArr(s)
    case StringLexeme => true
  }

  /** The chain int, float, bool, object, array, string that `read` runs on a
      value (and on each array item). */
  function Classify(s: string): (k: LexemeKind)
    ensures Accepts(k, s)
    ensures k == StringLexeme ==> !IsInt(s) && !IsFloat(s) && !IsBool(s) && !IsJsonObject(s) && !IsJsonArr(s)
  {
    if IsInt(s) then IntLexeme
    else if IsFloat(s) then FloatLexeme
    else if IsBool(s) then BoolLexeme
    else if IsJsonObject(s) then ObjectLexeme
    else if IsJsonArr(s) then ArrayLexeme
    else StringLexeme
  }

  /** The order of the chain decides nothing except integer versus float:
      any other kind that accepts the lexeme is the string fallback, or float
      for an integer lexeme. */
  lemma {:induction false} ClassifyIsForced(s: string, k: LexemeKind)
    requires Accepts(k, s)
    ensures k == Classify(s) || k == StringLexeme || (Classify(s) == IntLexeme && k == FloatLexeme)
  {
    KindsDisjoint(s);
  }

  lemma {:induction false} ClassifyInteger()
    ensures Classify("5") == IntLexeme
  {
    assert StripSign("5") == "5";
    assert DigitsValue("5"[..0]) == 0;
    assert ParseInteger("5") == Some(5);
  }

  lemma {:induction false} ClassifyFloat()
    ensures Classify("5.0") == FloatLexeme
  {
    var five := "5.0";
    assert StripSign(five) == five;
    assert !IsDigitRun(five) by { assert !IsDigit(five[1]); }
    assert !IsInt(five);
    assert AsciiLower(five) == five;
    assert IndexOf(five, 'e') == 3;
    assert five[..3] == five;
    assert IndexOf(five, '.') == 1;
    assert five[..1] == "5" && five[2..] == "0";
    assert IsFloat(five);
  }

  lemma {:induction false} ClassifyBool()
    ensures Classify("true") == BoolLexeme && Classify("false") == BoolLexeme
  {
    KindsDisjoint("true");
    KindsDisjoint("false");
  }

  /** Whatever follows it, a lexeme that starts with `"` is read as a string. */
  lemma {:induction false} ClassifyQuoted(s: string)
    requires |s| > 0 && s[0] == '"'
    ensures Classify(s) == StringLexeme
  {
    KindsDisjoint(s);
  }

  /** A lexeme that starts with `'[` and ends with `]'` is a nested array:
      no earlier test in the chain accepts it. */
  lemma {:induction false} ClassifyArray(s: string)
    requires IsJsonArr(s)
    ensures Classify(s) == ArrayLexeme
  {
    KindsDisjoint(s);
  }

  // ---------------------------------------------------------------------
  // `str::trim` and `str::replace("\"", "")`.

  predicate AllWhitespace(s: string)
  {
    forall i :: 0 <= i < |s| ==> IsWhitespace(s[i])
  }

  /** `str::trim_start`: the suffix left after dropping leading whitespace. */
  function TrimStart(s: string): (r: string)
    ensures |r| <= |s|
  {
    if s != [] && IsWhitespace(s[0]) then TrimStart(s[1..]) else s
  }

  /** What `TrimStart` drops is whitespace, and what it keeps starts with
      something else. */
  lemma {:induction false} TrimStartDrops(s: string)
    ensures TrimStart(s) == s[|s| - |TrimStart(s)|..]
    ensures AllWhitespace(s[..|s| - |TrimStart(s)|])
    ensures TrimStart(s) == [] || !IsWhitespace(TrimStart(s)[0])
  {
    if s != [] && IsWhitespace(s[0]) {
      TrimStartDrops(s[1..]);
      var r := TrimStart(s[1..]);
      assert s[..|s| - |r|] == [s[0]] + s[1..][..|s| - 1 - |r|];
    }
  }

  /** `str::trim_end`: the prefix left after dropping trailing whitespace. */
  function TrimEnd(s: string): (r: string)
    ensures |r| <= |s|
  {
    if s != [] && IsWhitespace(s[|s| - 1]) then TrimEnd(s[..|s| - 1]) else s
  }

  /** What `TrimEnd` drops is whitespace, and what it keeps ends with
      something else. */
  lemma {:induction false} TrimEndDrops(s: string)
    ensures TrimEnd(s) == s[..|TrimEnd(s)|]
    ensures AllWhitespace(s[|TrimEnd(s)|..])
    ensures TrimEnd(s) == [] || !IsWhitespace(TrimEnd(s)[|TrimEnd(s)| - 1])
  {
    if s != [] && IsWhitespace(s[|s| - 1]) {
      TrimEndDrops(s[..|s| - 1]);
      var r := TrimEnd(s[..|s| - 1]);
      assert s[|r|..] == s[..|s| - 1][|r|..] + [s[|s| - 1]];
    }
  }

  /** `str::trim`: `s` is the result with whitespace-only margins added. */
  function Trim(s: string): (r: string)
    ensures |r| <= |s|
  {
    TrimEnd(TrimStart(s))
  }

  /** `Trim(s)` is the slice of `s` at offset `a` that neither starts nor
      ends with whitespace, and what it leaves out on either side is all
      whitespace. */
  lemma {:induction false} TrimMargins(s: string) returns (a: nat)
    ensures a + |Trim(s)| <= |s|
    ensures Trim(s) == s[a..a + |Trim(s)|]
    ensures AllWhitespace(s[..a]) && AllWhitespace(s[a + |Trim(s)|..])
    ensures Trim(s) == [] || (!IsWhitespace(Trim(s)[0]) && !IsWhitespace(Trim(s)[|Trim(s)| - 1]))
  {
    var t := TrimStart(s);
    a := |s| - |t|;
    TrimStartDrops(s);
    TrimEndDrops(t);
    Margins(s, a, t, TrimEnd(t));
  }

  /** A suffix `t` of `s` after a whitespace margin, and a prefix `r` of `t`
      before one, make a slice of `s` with whitespace on either side. */
  lemma {:induction false} Margins(s: string, a: nat, t: string, r: string)
    requires a + |t| == |s| && t == s[a..] && AllWhitespace(s[..a])
    requires t == [] || !IsWhitespace(t[0])
    requires |r| <= |t| && r == t[..|r|] && AllWhitespace(t[|r|..])
    ensures a + |r| <= |s| && r == s[a..a + |r|]
    ensures AllWhitespace(s[..a]) && AllWhitespace(s[a + |r|..])
    ensures r == [] || !IsWhitespace(r[0])
  {
    assert s[a..][..|r|] == s[a..a + |r|];
    assert s[a..][|r|..] == s[a + |r|..];
  }

  /** A text with no whitespace at either end is its own trim. */
  lemma {:induction false} TrimKeeps(s: string)
    requires s == [] || (!IsWhitespace(s[0]) && !IsWhitespace(s[|s| - 1]))
    ensures Trim(s) == s
  {
    assert TrimStart(s) == s;
  }

  /** A text of whitespace only trims to nothing. */
  lemma {:induction false} TrimBlank(s: string)
    requires AllWhitespace(s)
    ensures Trim(s) == []
  {
    TrimStartDrops(s);
  }

  /** Trimming twice is trimming once. */
  lemma {:induction false} TrimIdempotent(s: string)
    ensures Trim(Trim(s)) == Trim(s)
  {
    var r := Trim(s);
    var _ := TrimMargins(s);
    TrimKeeps(r);
  }

  /** `str::replace("\"", "")`: every other character kept, in order. */
  function RemoveQuotes(s: string): (r: string)
    ensures '"' !in r
    ensures forall c :: c != '"' ==> multiset(r)[c] == multiset(s)[c]
    ensures '"' !in s ==> r == s
  {
    if s == [] then []
    else
      var rest := RemoveQuotes(s[1..]);
      assert s == [s[0]] + s[1..];
      if s[0] == '"' then rest else [s[0]] + rest
  }

  /** Removing quotes works piece by piece, so the order of the other
      characters is kept. */
  lemma {:induction false} RemoveQuotesConcat(a: string, b: string)
    ensures RemoveQuotes(a + b) == RemoveQuotes(a) + RemoveQuotes(b)
  {
    if a != [] {
      assert (a + b)[1..] == a[1..] + b;
      RemoveQuotesConcat(a[1..], b);
    } else {
      assert a + b == b;
    }
  }

  /** A double-quoted text without inner quotes loses exactly its quotes. */
  lemma {:induction false} Unquote(body: string)
    requires '"' !in body
    ensures RemoveQuotes("\"" + body + "\"") == body
  {
    RemoveQuotesConcat("\"" + body, "\"");
    RemoveQuotesConcat("\"", body);
  }
}
