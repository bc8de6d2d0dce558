/** The JavaScript string and number built-ins the pages rely on, stated on
    `seq<char>` and unbounded integers: case mapping, substring search,
    `lastIndexOf`, `split(c).pop()`, `replace` of a single character,
    `Number.prototype.toString(radix)` and `parseInt`. */
module Text {
  import opened Wrappers

  const SharpS := '\U{00DF}'
  const MicroSign := '\U{00B5}'
  const SmallYDiaeresis := '\U{00FF}'
  const CapitalYDiaeresis := '\U{0178}'
  const CapitalMu := '\U{039C}'
  const SmallMu := '\U{03BC}'

  /** String.prototype.toLowerCase on one character, for the Basic Latin and
      Latin-1 capitals and for the two capitals outside Latin-1 that
      toUpperCase produces from Latin-1 letters (every other character is
      left as it is). */
  function LowerChar(c: char): char
  {
    if 'A' <= c <= 'Z' || ('\U{00C0}' <= c <= '\U{00DE}' && c != '\U{00D7}')
    then (c as int + 32) as char
    else if c == CapitalYDiaeresis then SmallYDiaeresis
    else if c == CapitalMu then SmallMu
    else c
  }

  /** The one-character part of toUpperCase: a-z and the Latin-1 small
      letters from U+00E0 to U+00FE (except the division sign) move down by 32. */
  function UpperChar(c: char): char
  {
    if 'a' <= c <= 'z' || ('\U{00E0}' <= c <= '\U{00FE}' && c != '\U{00F7}')
    then (c as int - 32) as char
    else c
  }

  /** String.prototype.toUpperCase on one Latin-1 character: besides the
      shift by 32, the sharp s becomes the two letters "SS", the micro sign
      becomes Greek capital mu, and y with diaeresis becomes U+0178. */
  function UpperChars(c: char): string
  {
    if c == SharpS then "SS"
    else if c == MicroSign then [CapitalMu]
    else if c == SmallYDiaeresis then [CapitalYDiaeresis]
    else [UpperChar(c)]
  }

  function Lower(s: string): string
  {
    seq(|s|, i requires 0 <= i < |s| => LowerChar(s[i]))
  }

  function Upper(s: string): string
  {
    if |s| == 0 then "" else UpperChars(s[0]) + Upper(s[1..])
  }

  /** The case-folded form of one character, as `toUpperCase` followed by
      `toLowerCase` leaves it: the sharp s becomes "ss", the micro sign Greek
      small mu, and every other character its lower-case form. */
  function FoldChar(c: char): string
  {
    if c == SharpS then "ss"
    else if c == MicroSign then [SmallMu]
    else [LowerChar(c)]
  }

  function Fold(s: string): string
  {
    if |s| == 0 then "" else FoldChar(s[0]) + Fold(s[1..])
  }

  /** Lower-casing twice is lower-casing once. */
  lemma LowerIdempotent(s: string)
    ensures Lower(Lower(s)) == Lower(s)
  {
  }

  /** Upper-casing works character by character, so it distributes over concatenation. */
  lemma {:induction false} UpperAppend(a: string, b: string)
    ensures Upper(a + b) == Upper(a) + Upper(b)
  {
    if |a| > 0 {
      assert (a + b)[1..] == a[1..] + b;
      UpperAppend(a[1..], b);
    } else {
      assert a + b == b;
    }
  }

  /** Upper-casing does not create a character that only that character
      upper-cases to. */
  lemma {:induction false} UpperKeepsAbsent(s: string, c: char)
    requires forall d :: c in UpperChars(d) ==> d == c
    requires c !in s
    ensures c !in Upper(s)
  {
    if |s| > 0 {
      assert s[0] in s && c !in UpperChars(s[0]);
      assert forall x :: x in s[1..] ==> x in s;
      UpperKeepsAbsent(s[1..], c);
    }
  }

  /** One character upper-cased and lower-cased again is its folded form. */
  lemma LowerOfUpperChar(c: char)
    ensures Lower(UpperChars(c)) == FoldChar(c)
  {
  }

  /** Lower-casing after upper-casing gives the folded string, for every
      string; it gives back the lower-cased string exactly when no sharp s
      and no micro sign is involved. */
  lemma {:induction false} LowerOfUpper(s: string)
    ensures Lower(Upper(s)) == Fold(s)
    ensures SharpS !in s && MicroSign !in s ==> Lower(Upper(s)) == Lower(s)
  {
    if |s| > 0 {
      LowerOfUpper(s[1..]);
      LowerAppend(UpperChars(s[0]), Upper(s[1..]));
      LowerOfUpperChar(s[0]);
      assert s == [s[0]] + s[1..];
      LowerAppend([s[0]], s[1..]);
    }
  }

  /** The sharp s is where JavaScript's case mapping is not reversible: it
      upper-cases to "SS", which lower-cases to "ss". */
  lemma SharpSIsNotReversible()
    ensures Upper([SharpS]) == "SS"
    ensures Lower(Upper([SharpS])) == "ss" != Lower([SharpS])
  {
    assert Upper([SharpS]) == UpperChars(SharpS) + Upper([]);
  }

  predicate IsPrefix(p: string, s: string)
  {
    |p| <= |s| && s[..|p|] == p
  }

  /** `sub` occurs in `s` starting at position `i`. */
  predicate OccursAt(s: string, sub: string, i: int)
  {
    0 <= i && i + |sub| <= |s| && s[i..i + |sub|] == sub
  }

  /** String.prototype.includes: `sub` occurs in `s` at some position. */
  predicate Contains(s: string, sub: string)
  {
    exists i | 0 <= i <= |s| :: OccursAt(s, sub, i)
  }

  /** Every string contains the empty string. */
  lemma ContainsEmpty(s: string)
    ensures Contains(s, "")
  {
    assert OccursAt(s, "", 0);
  }

  /** Nothing longer than a string occurs in it. */
  lemma ContainsShorter(s: string, sub: string)
    requires Contains(s, sub)
    ensures |sub| <= |s|
  {
  }

  /** An occurrence survives lower-casing both strings. */
  lemma ContainsLower(s: string, sub: string)
    ensures Contains(s, sub) ==> Contains(Lower(s), Lower(sub))
  {
    if Contains(s, sub) {
      var i :| 0 <= i <= |s| && OccursAt(s, sub, i);
      assert Lower(s)[i..i + |sub|] == Lower(sub);
      assert OccursAt(Lower(s), Lower(sub), i);
    }
  }

  /** String.prototype.lastIndexOf for a single character: -1 when absent. */
  function LastIndexOf(s: string, c: char): (r: int)
    ensures -1 <= r < |s|
    ensures r >= 0 ==> s[r] == c
    ensures forall j :: r < j < |s| ==> s[j] != c
  {
    if |s| == 0 then -1
    else if s[|s| - 1] == c then |s| - 1
    else LastIndexOf(s[..|s| - 1], c)
  }

  /** When `b` starts with the only `c` it holds, the last `c` of `a + b` is
      the one at the start of `b`. */
  lemma LastIndexOfAppend(a: string, b: string, c: char)
    requires |b| > 0 && b[0] == c && c !in b[1..]
    ensures LastIndexOf(a + b, c) == |a|
  {
    assert (a + b)[|a|] == c;
    assert forall j :: |a| < j < |a + b| ==> (a + b)[j] == b[1..][j - |a| - 1];
  }

  /** Lower-casing works character by character, so it distributes over concatenation. */
  lemma LowerAppend(a: string, b: string)
    ensures Lower(a + b) == Lower(a) + Lower(b)
  {
  }

  /** Lower-casing does not create a character that no other character
      lower-cases to. */
  lemma LowerKeepsUncased(s: string, c: char)
    requires forall d :: LowerChar(d) == c ==> d == c
    requires c !in s
    ensures c !in Lower(s)
  {
    assert forall i :: 0 <= i < |s| ==> Lower(s)[i] == LowerChar(s[i]) && s[i] != c;
  }

  /** The piece after the last `c` of `a + [c] + b`, when `b` has no `c`, is `b`. */
  lemma LastSegmentAppend(a: string, b: string, c: char)
    requires c !in b
    ensures LastSegment(a + [c] + b, c) == b
  {
    assert a + [c] + b == a + ([c] + b);
    assert ([c] + b)[1..] == b;
    LastIndexOfAppend(a, [c] + b, c);
    assert (a + ([c] + b))[|a| + 1..] == b;
  }

  /** String.prototype.slice(start) for any integer start: a negative start
      counts from the end, and either way it is clamped to the string. */
  function SliceFrom(s: string, start: int): (r: string)
    ensures |r| <= |s| && s[|s| - |r|..] == r
    ensures 0 <= start <= |s| ==> |r| == |s| - start
    ensures -|s| <= start < 0 ==> |r| == -start
    ensures start > |s| ==> r == ""
    ensures start < -|s| ==> r == s
  {
    if start < 0 then (if |s| + start < 0 then s else s[|s| + start..])
    else if start >= |s| then ""
    else s[start..]
  }

  /** `s.split(c).pop()`: the piece after the last `c`, or all of `s` when it has none. */
  function LastSegment(s: string, c: char): (r: string)
    ensures c !in r
    ensures |r| <= |s| && s[|s| - |r|..] == r
    ensures |r| < |s| ==> s[|s| - |r| - 1] == c
  {
    s[LastIndexOf(s, c) + 1..]
  }

  /** `s.replace(c, "")` with a one-character pattern: drops the first `c`. */
  function RemoveFirst(s: string, c: char): (r: string)
    ensures c !in s ==> r == s
    ensures c in s ==> |r| == |s| - 1
  {
    if |s| == 0 then s
    else if s[0] == c then s[1..]
    else [s[0]] + RemoveFirst(s[1..], c)
  }

  // ---------------------------------------------------------------------------
  // Digits in radix 2..36, Number.prototype.toString(radix) and parseInt

  /** The value of a digit character (either case), or 36 for a non-digit. */
  function DigitValue(c: char): nat
  {
    if '0' <= c <= '9' then c as int - '0' as int
    else if 'a' <= c <= 'z' then c as int - 'a' as int + 10
    else if 'A' <= c <= 'Z' then c as int - 'A' as int + 10
    else 36
  }

  /** The lower-case digit character for `d`, as Number.prototype.toString writes it. */
  function DigitChar(d: nat): (c: char)
    requires d < 36
    ensures DigitValue(c) == d
    ensures c != '-' && c != '+' && c != 'X'
    ensures d < 16 ==> c != 'x'
    ensures !('A' <= c <= 'Z')
  {
    if d < 10 then
      var c := ('0' as int + d) as char;
      assert c as int - '0' as int == d;
      c
    else
      var c := ('a' as int + d - 10) as char;
      assert 'a' <= c <= 'z' && c as int - 'a' as int + 10 == d;
      c
  }

  predicate AllDigits(s: string, radix: nat)
  {
    forall i :: 0 <= i < |s| ==> DigitValue(s[i]) < radix
  }

  /** The number a string of digits denotes, most significant digit first. */
  function DigitsValue(s: string, radix: nat): nat
    requires AllDigits(s, radix)
  {
    if |s| == 0 then 0
    else DigitsValue(s[..|s| - 1], radix) * radix + DigitValue(s[|s| - 1])
  }

  function Pow(b: nat, k: nat): (r: nat)
    ensures b >= 1 ==> r >= 1
  {
    if k == 0 then 1 else b * Pow(b, k - 1)
  }

  /** Number.prototype.toString(radix) on a non-negative integer. */
  function NatToString(n: nat, radix: nat): (s: string)
    requires 2 <= radix <= 36
    ensures |s| >= 1
    ensures AllDigits(s, radix)
    ensures forall i :: 0 <= i < |s| ==> !('A' <= s[i] <= 'Z')
    decreases n
  {
    if n < radix then [DigitChar(n)]
    else
      QuotientSmaller(n, radix);
      var p := NatToString(n / radix, radix);
      var c := DigitChar(n % radix);
      assert forall i :: 0 <= i < |p| ==> (p + [c])[i] == p[i];
      p + [c]
  }

  /** Dividing a positive number by a radix makes it smaller. */
  lemma QuotientSmaller(n: nat, radix: nat)
    requires 2 <= radix && 0 < n
    ensures n / radix < n
  {
    DivMod(n, radix);
    MulMono(2, radix, n / radix);
  }

  /** Number.prototype.toString(radix) on any integer. */
  function IntToString(n: int, radix: nat): (r: string)
    requires 2 <= radix <= 36
    ensures |r| >= 1 && (r[0] == '-' <==> n < 0)
  {
    if n < 0 then "-" + NatToString(-n, radix) else NatToString(n, radix)
  }

  /** The longest run of digits valid in `radix` at the front of `s`. */
  function DigitPrefixLength(s: string, radix: nat): (k: nat)
    ensures k <= |s|
    ensures AllDigits(s[..k], radix)
    ensures k < |s| ==> DigitValue(s[k]) >= radix
  {
    if |s| == 0 || DigitValue(s[0]) >= radix then 0
    else 1 + DigitPrefixLength(s[1..], radix)
  }

  /** The characters parseInt skips before the number: ECMAScript's
      WhiteSpace (tab, vertical tab, form feed, space, no-break space, the
      byte order mark and the other space separators) and LineTerminator
      (line feed, carriage return, line and paragraph separators). */
  predicate IsJsWhiteSpace(c: char)
  {
    || c == '\t' || c == '\n' || c == '\U{000B}' || c == '\U{000C}' || c == '\r' || c == ' '
    || c == '\U{00A0}' || c == '\U{1680}' || ('\U{2000}' <= c <= '\U{200A}')
    || c == '\U{2028}' || c == '\U{2029}' || c == '\U{202F}' || c == '\U{205F}'
    || c == '\U{3000}' || c == '\U{FEFF}'
  }

  /** The string with its leading white space removed, as parseInt's first step. */
  function TrimStart(s: string): string
  {
    if |s| > 0 && IsJsWhiteSpace(s[0]) then TrimStart(s[1..]) else s
  }

  /** TrimStart keeps a suffix that does not start with white space, and
      what it removes is white space only. */
  lemma {:induction false} TrimStartRemovesWhiteSpace(s: string)
    ensures |TrimStart(s)| <= |s| && s[|s| - |TrimStart(s)|..] == TrimStart(s)
    ensures |TrimStart(s)| == 0 || !IsJsWhiteSpace(TrimStart(s)[0])
    ensures forall i :: 0 <= i < |s| - |TrimStart(s)| ==> IsJsWhiteSpace(s[i])
  {
    if |s| > 0 && IsJsWhiteSpace(s[0]) {
      var r := TrimStart(s[1..]);
      TrimStartRemovesWhiteSpace(s[1..]);
      assert s[|s| - |r|..] == s[1..][|s| - 1 - |r|..];
      assert forall i :: 1 <= i < |s| - |r| ==> s[i] == s[1..][i - 1];
    }
  }

  /** White space in front of a string that starts with something else is
      exactly what TrimStart removes. */
  lemma {:induction false} TrimStartPrefix(w: string, s: string)
    requires forall i :: 0 <= i < |w| ==> IsJsWhiteSpace(w[i])
    requires |s| == 0 || !IsJsWhiteSpace(s[0])
    ensures TrimStart(w + s) == s
  {
    if |w| > 0 {
      assert (w + s)[0] == w[0];
      assert (w + s)[1..] == w[1..] + s;
      TrimStartPrefix(w[1..], s);
    } else {
      assert w + s == s;
    }
  }

  /** No digit, sign or letter is white space. */
  lemma DigitNotWhiteSpace(c: char)
    requires DigitValue(c) < 36 || c == '-' || c == '+'
    ensures !IsJsWhiteSpace(c)
  {
  }

  /** The optional sign at the front of a parseInt argument. */
  function SignAndRest(s: string): (bool, string)
  {
    if |s| > 0 && s[0] == '-' then (true, s[1..])
    else if |s| > 0 && s[0] == '+' then (false, s[1..])
    else (false, s)
  }

  /** The radix parseInt settles on, and the text left once a "0x"/"0X"
      prefix is dropped (only for radix 16 or no radix; no radix means 10). */
  function RadixAndDigits(t: string, radix: nat): (nat, string)
  {
    if (radix == 0 || radix == 16) && |t| >= 2 && t[0] == '0' && (t[1] == 'x' || t[1] == 'X')
    then (16, t[2..])
    else if radix == 0 then (10, t)
    else (radix, t)
  }

  /** The value of the longest run of digits at the front, or None (NaN) when there is none. */
  function LeadingDigits(u: string, radix: nat): Option<nat>
  {
    var k := DigitPrefixLength(u, radix);
    if k == 0 then None else Some(DigitsValue(u[..k], radix))
  }

  /** parseInt(s, radix), with radix 0 standing for "not given". Leading
      white space is skipped, an optional sign is read, then (for radix 16 or no radix) an optional "0x"/"0X"
      prefix, then the longest run of valid digits; no digits is NaN (None). */
  function ParseInt(s: string, radix: nat): (r: Option<int>)
    ensures radix == 1 || radix > 36 ==> r.None?
  {
    ParseTrimmed(TrimStart(s), radix)
  }

  /** parseInt finds a number only where the string holds a digit. */
  lemma ParseIntNeedsDigit(s: string, radix: nat)
    ensures ParseInt(s, radix).Some? ==> exists i :: 0 <= i < |s| && DigitValue(s[i]) < 36
  {
    var t := TrimStart(s);
    TrimStartRemovesWhiteSpace(s);
    ParseTrimmedNeedsDigit(t, radix);
    assert forall i :: 0 <= i < |t| ==> t[i] == s[|s| - |t| + i];
  }

  /** parseInt once the leading white space is gone; a radix other than 0
      outside [2, 36] gives NaN. */
  function ParseTrimmed(s: string, radix: nat): Option<int>
  {
    if radix == 1 || radix > 36 then None
    else
      var (negative, t) := SignAndRest(s);
      var (r, u) := RadixAndDigits(t, radix);
      match LeadingDigits(u, r)
      case None => None
      case Some(v) => Some(if negative then -(v as int) else v as int)
  }

  /** A number is read only where some character is a digit. */
  lemma ParseTrimmedNeedsDigit(s: string, radix: nat)
    ensures ParseTrimmed(s, radix).Some? ==> exists i :: 0 <= i < |s| && DigitValue(s[i]) < 36
  {
    if ParseTrimmed(s, radix).Some? {
      var (negative, t) := SignAndRest(s);
      var (r, u) := RadixAndDigits(t, radix);
      assert t == s[|s| - |t|..];
      assert u == t[|t| - |u|..];
      assert DigitPrefixLength(u, r) > 0;
      assert DigitValue(u[0]) < r <= 36;
      assert s[|s| - |u|] == u[0];
    }
  }

  // ---------------------------------------------------------------------------
  // Lemmas about digits

  lemma MulMono(a: nat, b: nat, c: nat)
    requires a <= b
    ensures a * c <= b * c
  {
  }

  lemma DivMod(n: nat, r: nat)
    requires r >= 2
    ensures n == (n / r) * r + n % r && 0 <= n % r < r
  {
  }

  lemma DigitsValueAppend(p: string, c: char, radix: nat)
    requires AllDigits(p, radix) && DigitValue(c) < radix
    ensures AllDigits(p + [c], radix)
    ensures DigitsValue(p + [c], radix) == DigitsValue(p, radix) * radix + DigitValue(c)
  {
    var s := p + [c];
    assert s[..|s| - 1] == p;
  }

  lemma NatToStringSingleDigit(n: nat, radix: nat)
    requires 2 <= radix <= 36 && n < radix
    ensures DigitsValue(NatToString(n, radix), radix) == n
  {
    var s := NatToString(n, radix);
    assert s == [DigitChar(n)];
    assert s[..0] == [];
    assert DigitsValue(s, radix) == 0 * radix + DigitValue(s[0]);
  }

  lemma NatToStringLastDigit(n: nat, radix: nat)
    requires 2 <= radix <= 36 && n >= radix
    requires DigitsValue(NatToString(n / radix, radix), radix) == n / radix
    ensures DigitsValue(NatToString(n, radix), radix) == n
  {
    var q := n / radix;
    var m := n % radix;
    assert n == q * radix + m by { DivMod(n, radix); }
    var p := NatToString(q, radix);
    assert NatToString(n, radix) == p + [DigitChar(m)];
    DigitsValueAppend(p, DigitChar(m), radix);
  }

  /** Printing a number and reading its digits back gives the number. */
  lemma {:induction false} NatToStringRoundTrip(n: nat, radix: nat)
    requires 2 <= radix <= 36
    ensures DigitsValue(NatToString(n, radix), radix) == n
    decreases n
  {
    if n < radix {
      NatToStringSingleDigit(n, radix);
    } else {
      NatToStringRoundTrip(n / radix, radix);
      NatToStringLastDigit(n, radix);
    }
  }

  /** The quotient by radix of a number in [radix^k, radix^(k+1)), k > 0,
      lies in [radix^(k-1), radix^k). */
  lemma QuotientRange(n: nat, radix: nat, k: nat)
    requires 2 <= radix && k > 0
    requires Pow(radix, k) <= n < Pow(radix, k + 1)
    ensures Pow(radix, k - 1) <= n / radix < Pow(radix, k)
  {
    var w := Pow(radix, k - 1);
    var big := Pow(radix, k);
    assert big == radix * w;
    assert Pow(radix, k + 1) == radix * big;
    DivMod(n, radix);
    QuotientBounds(n, radix, n / radix, w, big);
  }

  /** A quotient q with q * r <= n < q * r + r, for n in [r * w, r * big), lies in [w, big). */
  lemma QuotientBounds(n: nat, r: nat, q: nat, w: nat, big: nat)
    requires r >= 2
    requires q * r <= n < q * r + r
    requires r * w <= n < r * big
    ensures w <= q < big
  {
    if q < w {
      MulMono(q + 1, w, r);
    }
    if q >= big {
      MulMono(big, q, r);
    }
  }

  /** A number in [radix^k, radix^(k+1)) prints with exactly k + 1 digits. */
  lemma {:induction false} NatToStringLength(n: nat, radix: nat, k: nat)
    requires 2 <= radix <= 36
    requires Pow(radix, k) <= n < Pow(radix, k + 1)
    ensures |NatToString(n, radix)| == k + 1
    decreases k
  {
    if k > 0 {
      QuotientRange(n, radix, k);
      NatToStringLength(n / radix, radix, k - 1);
    }
  }

  /** A string of digits is below radix^length. */
  lemma {:induction false} DigitsValueBound(s: string, radix: nat)
    requires 2 <= radix
    requires AllDigits(s, radix)
    ensures DigitsValue(s, radix) < Pow(radix, |s|)
  {
    if |s| > 0 {
      var p := s[..|s| - 1];
      DigitsValueBound(p, radix);
      var v := DigitsValue(p, radix);
      var w := Pow(radix, |p|);
      assert DigitsValue(s, radix) == v * radix + DigitValue(s[|s| - 1]);
      assert Pow(radix, |s|) == radix * w;
      BoundStep(v, w, DigitValue(s[|s| - 1]), radix);
    }
  }

  /** One more digit below the radix keeps a value below the next power. */
  lemma BoundStep(v: nat, w: nat, d: nat, radix: nat)
    requires v < w && d < radix
    ensures v * radix + d < radix * w
  {
    MulMono(v + 1, w, radix);
    assert (v + 1) * radix == v * radix + radix;
  }

  lemma DigitsValueLeadingStep(s: string, radix: nat)
    requires 2 <= radix
    requires |s| >= 2 && AllDigits(s, radix)
    requires DigitsValue(s[..|s| - 1], radix)
          == DigitValue(s[0]) * Pow(radix, |s| - 2) + DigitsValue(s[..|s| - 1][1..], radix)
    ensures DigitsValue(s, radix) == DigitValue(s[0]) * Pow(radix, |s| - 1) + DigitsValue(s[1..], radix)
  {
    var p := s[..|s| - 1];
    var t := s[1..];
    var d0 := DigitValue(s[0]);
    var w := Pow(radix, |s| - 2);
    var a := DigitsValue(p[1..], radix);
    var last := DigitValue(s[|s| - 1]);
    assert p[1..] == t[..|t| - 1];
    assert DigitsValue(t, radix) == a * radix + last;
    assert DigitsValue(s, radix) == (d0 * w + a) * radix + last;
    assert Pow(radix, |s| - 1) == radix * w;
    Distribute(d0, w, a, radix, last);
  }

  lemma Distribute(d: int, w: int, a: int, r: int, e: int)
    ensures (d * w + a) * r + e == d * (r * w) + (a * r + e)
  {
  }

  /** The leading digit of a string of digits weighs radix^(length - 1). */
  lemma {:induction false} DigitsValueLeading(s: string, radix: nat)
    requires 2 <= radix
    requires |s| >= 1 && AllDigits(s, radix)
    ensures DigitsValue(s, radix) == DigitValue(s[0]) * Pow(radix, |s| - 1) + DigitsValue(s[1..], radix)
  {
    if |s| == 1 {
      assert s[1..] == [];
      assert s[..0] == [];
    } else {
      DigitsValueLeading(s[..|s| - 1], radix);
      DigitsValueLeadingStep(s, radix);
    }
  }

  /** A string made only of digits is its own longest digit prefix. */
  lemma DigitPrefixWhole(u: string, radix: nat)
    requires AllDigits(u, radix)
    ensures DigitPrefixLength(u, radix) == |u|
  {
  }

  /** With no radix, a string of decimal digits is read in radix 10 as it stands. */
  lemma DecimalDigitsRadix(d: string)
    requires |d| >= 1 && AllDigits(d, 10)
    ensures RadixAndDigits(d, 0) == (10, d)
    ensures LeadingDigits(d, 10) == Some(DigitsValue(d, 10))
  {
    assert |d| >= 2 ==> DigitValue(d[1]) < 10;
    DigitPrefixWhole(d, 10);
    assert d[..|d|] == d;
  }

  /** A string that does not start with white space is parsed as it stands. */
  lemma ParseIntNoWhiteSpace(s: string, radix: nat)
    requires |s| == 0 || !IsJsWhiteSpace(s[0])
    ensures ParseInt(s, radix) == ParseTrimmed(s, radix)
  {
  }

  /** A run of decimal digits is read as its value. */
  lemma ParseDecimalDigits(d: string)
    requires |d| >= 1 && AllDigits(d, 10)
    ensures ParseTrimmed(d, 0) == Some(DigitsValue(d, 10) as int)
  {
    DecimalDigitsRadix(d);
    assert DigitValue(d[0]) < 10;
    assert SignAndRest(d) == (false, d);
  }

  /** A minus sign in front of a string that starts with neither sign
      negates what the string parses to, and is NaN exactly when it is. */
  lemma ParseTrimmedMinus(d: string, radix: nat)
    requires |d| >= 1 && d[0] != '-' && d[0] != '+'
    ensures ParseTrimmed("-" + d, radix).None? <==> ParseTrimmed(d, radix).None?
    ensures ParseTrimmed(d, radix).Some? ==> ParseTrimmed("-" + d, radix) == Some(-ParseTrimmed(d, radix).value)
  {
    var s := "-" + d;
    assert s[0] == '-' && s[1..] == d;
    assert SignAndRest(s) == (true, d);
    assert SignAndRest(d) == (false, d);
  }

  /** The same at the level of parseInt, for a string that starts with
      neither white space nor a sign. */
  lemma ParseIntMinus(d: string, radix: nat)
    requires |d| >= 1 && d[0] != '-' && d[0] != '+' && !IsJsWhiteSpace(d[0])
    ensures ParseInt("-" + d, radix).None? <==> ParseInt(d, radix).None?
    ensures ParseInt(d, radix).Some? ==> ParseInt("-" + d, radix) == Some(-ParseInt(d, radix).value)
  {
    assert ("-" + d)[0] == '-';
    DigitNotWhiteSpace('-');
    ParseIntNoWhiteSpace("-" + d, radix);
    ParseIntNoWhiteSpace(d, radix);
    ParseTrimmedMinus(d, radix);
  }

  /** parseInt reads a run of decimal digits as its value. */
  lemma ParseDecimalString(d: string)
    requires |d| >= 1 && AllDigits(d, 10)
    ensures ParseInt(d, 0) == Some(DigitsValue(d, 10) as int)
  {
    assert DigitValue(d[0]) < 10;
    DigitNotWhiteSpace(d[0]);
    ParseIntNoWhiteSpace(d, 0);
    ParseDecimalDigits(d);
  }

  lemma ParseNatString(m: nat)
    ensures ParseInt(NatToString(m, 10), 0) == Some(m as int)
  {
    ParseDecimalString(NatToString(m, 10));
    NatToStringRoundTrip(m, 10);
  }

  /** parseInt reads back what Number.prototype.toString(10) wrote, so a
      decimal round trip through storage is exact. */
  lemma DecimalRoundTrip(n: int)
    ensures ParseInt(IntToString(n, 10), 0) == Some(n)
  {
    if n < 0 {
      var m: nat := -n;
      var d := NatToString(m, 10);
      assert IntToString(n, 10) == "-" + d;
      assert DigitValue(d[0]) < 10;
      DigitNotWhiteSpace(d[0]);
      ParseNatString(m);
      ParseIntMinus(d, 0);
    } else {
      assert IntToString(n, 10) == NatToString(n, 10);
      ParseNatString(n);
    }
  }

  /** parseInt ignores any run of leading white space. */
  lemma ParseIntSkipsWhiteSpace(w: string, s: string, radix: nat)
    requires forall i :: 0 <= i < |w| ==> IsJsWhiteSpace(w[i])
    requires |s| == 0 || !IsJsWhiteSpace(s[0])
    ensures ParseInt(w + s, radix) == ParseInt(s, radix)
  {
    TrimStartPrefix(w, s);
  }

  /** parseInt reads " 1", "\t1" and "\n1" as 1. */
  lemma ParseIntLeadingSpace()
    ensures ParseInt(" 1", 0) == Some(1)
    ensures ParseInt("\t1", 0) == Some(1)
    ensures ParseInt("\n1", 0) == Some(1)
  {
    ParseNatString(1);
    assert NatToString(1, 10) == "1";
    ParseIntSkipsWhiteSpace(" ", "1", 0);
    ParseIntSkipsWhiteSpace("\t", "1", 0);
    ParseIntSkipsWhiteSpace("\n", "1", 0);
  }

  /** A string of letters without digits in radix 10 is NaN. */
  lemma ParseIntLetters()
    ensures ParseInt("abc", 0) == None
  {
    assert DigitValue('a') == 10;
    assert DigitPrefixLength("abc", 10) == 0;
  }

  /** parseInt without a radix skips leading zeros. */
  lemma ParseIntLeadingZeros()
    ensures ParseInt("007", 0) == Some(7)
  {
    assert DigitPrefixLength("7", 10) == 1;
    assert DigitPrefixLength("07", 10) == 2;
    assert DigitPrefixLength("007", 10) == 3;
    assert "007"[..3] == "007" && "007"[..2] == "00" && "00"[..1] == "0";
    assert DigitsValue("00", 10) == 0;
  }

  /** parseInt without a radix reads a "0x" prefix as hexadecimal. */
  lemma ParseIntHexPrefix()
    ensures ParseInt("0x1", 0) == Some(1)
  {
    assert RadixAndDigits("0x1", 0) == (16, "1");
    assert DigitPrefixLength("1", 16) == 1;
  }

  /** parseInt stops at the first character that is not a digit. */
  lemma ParseIntTrailingText()
    ensures ParseInt("1abc", 0) == Some(1)
  {
    assert DigitValue('a') == 10;
    assert DigitPrefixLength("abc", 10) == 0;
    assert DigitPrefixLength("1abc", 10) == 1;
    assert "1abc"[..1] == "1";
  }
}
