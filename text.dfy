/**
 * The JavaScript string primitives the models and the pages rely on, restricted to what
 * they use: the `\s` and `\w` character classes, `toLowerCase` (ASCII
 * letters only), `trim`, `includes`, the default `Array.prototype.sort`
 * comparison and decimal digits (`parseInt`, `Number.prototype.toString`,
 * `padStart`).
 */
module Text {
  import opened Wrappers
  import opened Seqs

  /**
   * JavaScript's `\s`, which is also the set `String.prototype.trim` removes:
   * the WhiteSpace and LineTerminator characters of ECMA-262 (sections 12.2
   * and 12.3), outside unicode-flag regular expressions.
   */
  predicate IsSpace(c: char) {
    || c == ' ' || c == '\t' || c == '\n' || c == '\U{B}' || c == '\U{C}' || c == '\r'
    || c == '\U{A0}' || c == '\U{1680}' || ('\U{2000}' <= c <= '\U{200A}')
    || c == '\U{2028}' || c == '\U{2029}' || c == '\U{202F}' || c == '\U{205F}'
    || c == '\U{3000}' || c == '\U{FEFF}'
  }

  /** JavaScript's `\w`: `[A-Za-z0-9_]`. */
  predicate IsWordChar(c: char) {
    'a' <= c <= 'z' || 'A' <= c <= 'Z' || '0' <= c <= '9' || c == '_'
  }

  predicate IsUpper(c: char) {
    'A' <= c <= 'Z'
  }

  /** `toLowerCase` on one character, ASCII letters only. */
  function LowerChar(c: char): (d: char)
    ensures !IsUpper(d)
    ensures IsWordChar(d) == IsWordChar(c) && IsSpace(d) == IsSpace(c)
    ensures !IsUpper(c) ==> d == c
  {
    if IsUpper(c) then (c as int + 32) as char else c
  }

  /** `String.prototype.toLowerCase`, ASCII letters only. */
  function Lower(s: string): (r: string)
    ensures |r| == |s|
    ensures forall i :: 0 <= i < |s| ==> r[i] == LowerChar(s[i])
  {
    seq(|s|, i requires 0 <= i < |s| => LowerChar(s[i]))
  }

  /** `s.indexOf(c)`: the index of the first `c` in `s`, None for -1. */
  function IndexOf(s: string, c: char): (o: Option<nat>)
    ensures o.Some? ==> o.value < |s| && s[o.value] == c && c !in s[..o.value]
    ensures o.None? ==> c !in s
  {
    if s == [] then None
    else if s[0] == c then Some(0)
    else
      match IndexOf(s[1..], c)
      case None => None
      case Some(i) =>
        assert s[..i + 1] == [s[0]] + s[1..][..i];
        Some(i + 1)
  }

  /** The first `c` in `s` is the one at `k` when none comes before it. */
  lemma {:induction false} IndexOfAt(s: string, c: char, k: nat)
    requires k < |s| && s[k] == c && c !in s[..k]
    ensures IndexOf(s, c) == Some(k)
  {
    if k > 0 {
      assert s[0] == s[..k][0];
      assert s[1..][..k - 1] == s[1..k];
      assert forall x :: x in s[1..k] ==> x in s[..k];
      IndexOfAt(s[1..], c, k - 1);
    }
  }

  /** Removes the longest prefix whose characters all satisfy `p`. */
  function DropWhile(s: string, p: char -> bool): (r: string)
    ensures |r| <= |s|
    ensures r == [] || !p(r[0])
    ensures s != [] && p(s[0]) ==> |r| < |s|
  {
    if s != [] && p(s[0]) then DropWhile(s[1..], p) else s
  }

  /** Every character `DropWhile` removes satisfies `p`. */
  lemma {:induction false} DropWhilePrefix(s: string, p: char -> bool)
    ensures forall i :: 0 <= i < |s| - |DropWhile(s, p)| ==> p(s[i])
  {
    if s != [] && p(s[0]) {
      DropWhilePrefix(s[1..], p);
      assert forall i :: 1 <= i < |s| - |DropWhile(s, p)| ==> s[i] == s[1..][i - 1];
    }
  }

  /** What `DropWhile` leaves is a suffix of its input. */
  lemma {:induction false} DropWhileSuffix(s: string, p: char -> bool)
    ensures DropWhile(s, p) == s[|s| - |DropWhile(s, p)|..]
  {
    if s != [] && p(s[0]) {
      DropWhileSuffix(s[1..], p);
    }
  }

  /** Removes the longest suffix whose characters all satisfy `p`. */
  function DropWhileEnd(s: string, p: char -> bool): (r: string)
    ensures |r| <= |s| && r == s[..|r|]
    ensures r == [] || !p(r[|r| - 1])
  {
    if s != [] && p(s[|s| - 1]) then DropWhileEnd(s[..|s| - 1], p) else s
  }

  /** Every character `DropWhileEnd` removes satisfies `p`. */
  lemma {:induction false} DropWhileEndSuffix(s: string, p: char -> bool)
    ensures forall i :: |DropWhileEnd(s, p)| <= i < |s| ==> p(s[i])
  {
    if s != [] && p(s[|s| - 1]) {
      DropWhileEndSuffix(s[..|s| - 1], p);
      assert forall i :: |DropWhileEnd(s, p)| <= i < |s| - 1 ==> s[i] == s[..|s| - 1][i];
    }
  }

  /** `String.prototype.trim`. */
  function Trim(s: string): (r: string)
    ensures r == [] || (!IsSpace(r[0]) && !IsSpace(r[|r| - 1]))
  {
    var u := DropWhile(s, IsSpace);
    var r := DropWhileEnd(u, IsSpace);
    assert r != [] ==> r[0] == u[0];
    r
  }

  /** A string is blank (`s.trim() === ""`) exactly when every character is whitespace. */
  lemma TrimEmptyIff(s: string)
    ensures Trim(s) == [] <==> forall i :: 0 <= i < |s| ==> IsSpace(s[i])
  {
    var u := DropWhile(s, IsSpace);
    DropWhileSuffix(s, IsSpace);
    DropWhilePrefix(s, IsSpace);
    DropWhileEndSuffix(u, IsSpace);
    assert u != [] ==> u[0] == s[|s| - |u|];
    assert Trim(s) == [] ==> u == [];
  }

  /** Every character `trim` keeps comes from its input. */
  lemma TrimChars(s: string)
    ensures forall i :: 0 <= i < |Trim(s)| ==> Trim(s)[i] in s
  {
    var u := DropWhile(s, IsSpace);
    DropWhileSuffix(s, IsSpace);
    forall i | 0 <= i < |Trim(s)| ensures Trim(s)[i] in s {
      assert Trim(s)[i] == u[i] == s[|s| - |u| + i];
    }
  }

  lemma DropWhileNoop(s: string, p: char -> bool)
    requires s == [] || !p(s[0])
    ensures DropWhile(s, p) == s
  {
  }

  lemma DropWhileEndNoop(s: string, p: char -> bool)
    requires s == [] || !p(s[|s| - 1])
    ensures DropWhileEnd(s, p) == s
  {
  }

  /** A string with no whitespace at either end is its own trim. */
  lemma TrimNoop(s: string)
    requires s == [] || (!IsSpace(s[0]) && !IsSpace(s[|s| - 1]))
    ensures Trim(s) == s
  {
    DropWhileNoop(s, IsSpace);
    DropWhileEndNoop(s, IsSpace);
  }

  /** Trimming twice is trimming once. */
  lemma TrimIdempotent(s: string)
    ensures Trim(Trim(s)) == Trim(s)
  {
    var t := Trim(s);
    DropWhileNoop(t, IsSpace);
    DropWhileEndNoop(t, IsSpace);
  }

  lemma {:induction false} LowerDropWhile(s: string)
    ensures DropWhile(Lower(s), IsSpace) == Lower(DropWhile(s, IsSpace))
  {
    if s != [] {
      assert Lower(s)[1..] == Lower(s[1..]);
      if IsSpace(s[0]) {
        LowerDropWhile(s[1..]);
      }
    }
  }

  lemma {:induction false} LowerDropWhileEnd(s: string)
    ensures DropWhileEnd(Lower(s), IsSpace) == Lower(DropWhileEnd(s, IsSpace))
    decreases |s|
  {
    if s != [] {
      var n := |s| - 1;
      assert Lower(s)[..n] == Lower(s[..n]);
      if IsSpace(s[n]) {
        LowerDropWhileEnd(s[..n]);
      }
    }
  }

  /** `toLowerCase` and `trim` commute, so the order of Mongoose's `lowercase` and `trim` setters is immaterial. */
  lemma TrimLowerCommute(s: string)
    ensures Trim(Lower(s)) == Lower(Trim(s))
  {
    LowerDropWhile(s);
    LowerDropWhileEnd(DropWhile(s, IsSpace));
  }

  lemma {:induction false} LowerIdempotent(s: string)
    ensures Lower(Lower(s)) == Lower(s)
  {
  }

  /** Lower-casing a string with no upper-case letter changes nothing. */
  lemma {:induction false} LowerNoop(s: string)
    requires forall i :: 0 <= i < |s| ==> !IsUpper(s[i])
    ensures Lower(s) == s
  {
  }

  /** `s.includes(q)`. */
  predicate Contains(s: string, q: string)
    decreases |s|
  {
    q <= s || (s != [] && Contains(s[1..], q))
  }

  /** `q` occurs in `s` starting at index `i`. */
  predicate OccursAt(s: string, q: string, i: int) {
    0 <= i && i + |q| <= |s| && s[i..i + |q|] == q
  }

  /** `includes` holds exactly when `q` occurs at some position of `s`. */
  lemma {:induction false} ContainsIff(s: string, q: string)
    ensures Contains(s, q) <==> exists i :: OccursAt(s, q, i)
    decreases |s|
  {
    if q <= s {
      assert OccursAt(s, q, 0);
    } else if s == [] {
    } else {
      ContainsIff(s[1..], q);
      if exists i :: OccursAt(s, q, i) {
        var i :| OccursAt(s, q, i);
        assert i != 0;
        assert OccursAt(s[1..], q, i - 1);
      }
      if exists j :: OccursAt(s[1..], q, j) {
        var j :| OccursAt(s[1..], q, j);
        assert OccursAt(s, q, j + 1);
      }
    }
  }

  // ---- the default order of Array.prototype.sort on strings ----

  /** `a <= b` in the code-unit order the default `sort` uses. */
  predicate LexLe(a: string, b: string)
    decreases |a|
  {
    a == [] || (b != [] && (a[0] < b[0] || (a[0] == b[0] && LexLe(a[1..], b[1..]))))
  }

  lemma {:induction false} LexLeTotal(a: string, b: string)
    ensures LexLe(a, b) || LexLe(b, a)
    decreases |a|
  {
    if a != [] && b != [] && a[0] == b[0] {
      LexLeTotal(a[1..], b[1..]);
    }
  }

  lemma {:induction false} LexLeTransitive(a: string, b: string, c: string)
    requires LexLe(a, b) && LexLe(b, c)
    ensures LexLe(a, c)
    decreases |a|
  {
    if a != [] && a[0] == b[0] && b[0] == c[0] {
      LexLeTransitive(a[1..], b[1..], c[1..]);
    }
  }

  lemma {:induction false} LexLeAntisymmetric(a: string, b: string)
    requires LexLe(a, b) && LexLe(b, a)
    ensures a == b
    decreases |a|
  {
    if a != [] {
      LexLeAntisymmetric(a[1..], b[1..]);
      assert a == [a[0]] + a[1..] && b == [b[0]] + b[1..];
    }
  }

  lemma LexLeTotalPreorder()
    ensures TotalPreorder(LexLe)
  {
    forall a, b ensures LexLe(a, b) || LexLe(b, a) {
      LexLeTotal(a, b);
    }
    forall a, b, c | LexLe(a, b) && LexLe(b, c) ensures LexLe(a, c) {
      LexLeTransitive(a, b, c);
    }
  }

  // ---- decimal digits ----

  predicate IsDigit(c: char) {
    '0' <= c <= '9'
  }

  /** Every character of `s` is a decimal digit (stated from the end, the way `DigitsValue` reads). */
  predicate AllDigits(s: string)
    decreases |s|
  {
    s == [] || (AllDigits(s[..|s| - 1]) && IsDigit(s[|s| - 1]))
  }

  lemma {:induction false} AllDigitsIff(s: string)
    ensures AllDigits(s) <==> forall i :: 0 <= i < |s| ==> IsDigit(s[i])
    decreases |s|
  {
    if s != [] {
      var n := |s| - 1;
      AllDigitsIff(s[..n]);
      assert forall i :: 0 <= i < n ==> s[..n][i] == s[i];
    }
  }

  lemma OneDigitValue(s: string)
    requires |s| == 1 && IsDigit(s[0])
    ensures AllDigits(s) && DigitsValue(s) == DigitValue(s[0])
  {
    assert s[..0] == [];
  }

  lemma TwoDigitsValue(s: string)
    requires |s| == 2 && IsDigit(s[0]) && IsDigit(s[1])
    ensures AllDigits(s) && DigitsValue(s) == DigitValue(s[0]) * 10 + DigitValue(s[1])
  {
    var h := s[..1];
    assert h[..0] == [] && h[0] == s[0];
    assert AllDigits(h) && DigitsValue(h) == DigitValue(s[0]);
    assert s[..|s| - 1] == h;
  }

  lemma FourDigitsValue(s: string)
    requires |s| == 4 && IsDigit(s[0]) && IsDigit(s[1]) && IsDigit(s[2]) && IsDigit(s[3])
    ensures AllDigits(s) && DigitsValue(s) == DigitsValue(s[..2]) * 100 + DigitsValue(s[2..])
    ensures DigitsValue(s[..2]) == DigitValue(s[0]) * 10 + DigitValue(s[1])
    ensures DigitsValue(s[2..]) == DigitValue(s[2]) * 10 + DigitValue(s[3])
  {
    TwoDigitsValue(s[..2]);
    TwoDigitsValue(s[2..]);
    assert s[..3][..2] == s[..2];
  }

  function DigitValue(c: char): (d: nat)
    requires IsDigit(c)
    ensures d < 10
  {
    c as int - '0' as int
  }

  function DigitChar(d: nat): (c: char)
    requires d < 10
    ensures IsDigit(c) && DigitValue(c) == d
  {
    ('0' as int + d) as char
  }

  function Pow10(k: nat): (p: nat)
    ensures p >= 1
  {
    if k == 0 then 1 else 10 * Pow10(k - 1)
  }

  /** `parseInt(s, 10)` of a string of decimal digits. */
  function DigitsValue(s: string): (n: nat)
    requires AllDigits(s)
    decreases |s|
  {
    if s == [] then 0 else DigitsValue(s[..|s| - 1]) * 10 + DigitValue(s[|s| - 1])
  }

  /** `n.toString()` for a non-negative integer: shortest decimal form, no leading zero. */
  function DecimalDigits(n: nat): (r: string)
    ensures |r| >= 1 && AllDigits(r) && DigitsValue(r) == n
    ensures |r| > 1 ==> r[0] != '0'
  {
    if n < 10 then [DigitChar(n)]
    else
      var r := DecimalDigits(n / 10) + [DigitChar(n % 10)];
      assert r[..|r| - 1] == DecimalDigits(n / 10);
      r
  }

  /** `s.padStart(width, fill)`. */
  function PadStart(s: string, width: nat, fill: char): (r: string)
    ensures |r| == if |s| >= width then |s| else width
    ensures r[|r| - |s|..] == s
    ensures forall i :: 0 <= i < |r| - |s| ==> r[i] == fill
  {
    if |s| >= width then s else seq(width - |s|, _ => fill) + s
  }

  lemma {:induction false} DigitsValueBound(s: string)
    requires AllDigits(s)
    ensures DigitsValue(s) < Pow10(|s|)
    decreases |s|
  {
    if s != [] {
      DigitsValueBound(s[..|s| - 1]);
    }
  }

  /** Leading zeros do not change the value `parseInt` reads. */
  lemma {:induction false} DigitsValueLeadingZeros(z: string, s: string)
    requires AllDigits(s) && forall i :: 0 <= i < |z| ==> z[i] == '0'
    ensures AllDigits(z + s) && DigitsValue(z + s) == DigitsValue(s)
    decreases |s|
  {
    if s == [] {
      assert z + s == z;
      ZerosValue(z);
    } else {
      var n := |s| - 1;
      assert (z + s)[..|z + s| - 1] == z + s[..n];
      DigitsValueLeadingZeros(z, s[..n]);
    }
  }

  lemma {:induction false} ZerosValue(z: string)
    requires forall i :: 0 <= i < |z| ==> z[i] == '0'
    ensures AllDigits(z) && DigitsValue(z) == 0
    decreases |z|
  {
    if z != [] {
      ZerosValue(z[..|z| - 1]);
    }
  }

  /** Two digit strings of one length with one value are equal. */
  lemma {:induction false} DigitsValueInjective(a: string, b: string)
    requires AllDigits(a) && AllDigits(b) && |a| == |b|
    requires DigitsValue(a) == DigitsValue(b)
    ensures a == b
    decreases |a|
  {
    if a != [] {
      var n := |a| - 1;
      assert DigitValue(a[n]) == DigitsValue(a) % 10 && DigitValue(b[n]) == DigitsValue(b) % 10;
      assert DigitsValue(a[..n]) == DigitsValue(a) / 10 && DigitsValue(b[..n]) == DigitsValue(b) / 10;
      DigitsValueInjective(a[..n], b[..n]);
      assert a == a[..n] + [a[n]] && b == b[..n] + [b[n]];
    }
  }

  lemma {:induction false} DecimalDigitsLength(n: nat, w: nat)
    requires w >= 1 && n < Pow10(w)
    ensures |DecimalDigits(n)| <= w
  {
    if n >= 10 {
      DecimalDigitsLength(n / 10, w - 1);
    }
  }

  /** A number of at least `10^k` has more than `k` decimal digits. */
  lemma {:induction false} DecimalDigitsAtLeast(n: nat, k: nat)
    requires n >= Pow10(k)
    ensures |DecimalDigits(n)| > k
  {
    if k > 0 {
      DecimalDigitsAtLeast(n / 10, k - 1);
    }
  }

  /** `n.toString().padStart(w, "0")` is exactly `w` digits reading back as `n`, when `n < 10^w`. */
  lemma PaddedDecimal(n: nat, w: nat)
    requires w >= 1 && n < Pow10(w)
    ensures |PadStart(DecimalDigits(n), w, '0')| == w
    ensures AllDigits(PadStart(DecimalDigits(n), w, '0'))
    ensures DigitsValue(PadStart(DecimalDigits(n), w, '0')) == n
  {
    var d := DecimalDigits(n);
    DecimalDigitsLength(n, w);
    var r := PadStart(d, w, '0');
    var z := r[..|r| - |d|];
    assert r == z + d;
    DigitsValueLeadingZeros(z, d);
  }
}
