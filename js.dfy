/**
 * The JavaScript built-ins that the uploader, the signer and the signing
 * endpoint rely on, as far as their results matter there:
 * `String(n)` for an integer, the string comparison behind the default
 * `Array.prototype.sort`, `Array.prototype.join`, `String.prototype.split`
 * with a one-character separator, and `Math.round` of a quotient.
 */
module Js {
  import opened Wrappers

  // ---------------------------------------------------------------------
  // String(n) for an integer-valued number
  // ---------------------------------------------------------------------

  predicate IsDigit(c: char) { '0' <= c <= '9' }

  function DigitChar(d: int): (c: char)
    requires 0 <= d < 10
    ensures IsDigit(c) && c as int - '0' as int == d
  {
    (d + '0' as int) as char
  }

  /** Decimal digits of `n`, most significant first, without leading zeros. */
  function NatToDecimal(n: nat): (r: string)
    ensures |r| >= 1
    ensures forall i :: 0 <= i < |r| ==> IsDigit(r[i])
    ensures |r| > 1 ==> r[0] != '0'
  {
    if n < 10 then [DigitChar(n)] else NatToDecimal(n / 10) + [DigitChar(n % 10)]
  }

  /** `String(n)` for an integer `n`: an optional minus sign, then the digits. */
  function NumberToString(n: int): string
  {
    if n < 0 then "-" + NatToDecimal(-n) else NatToDecimal(n)
  }

  function DigitValue(c: char): (d: nat)
    requires IsDigit(c)
    ensures d < 10
  {
    c as int - '0' as int
  }

  /** The value of a non-empty string of decimal digits. */
  function DecimalValue(s: string): nat
    requires |s| >= 1 && forall i :: 0 <= i < |s| ==> IsDigit(s[i])
  {
    var last := DigitValue(s[|s| - 1]);
    if |s| == 1 then last else 10 * DecimalValue(s[..|s| - 1]) + last
  }

  /** Reads back what `NumberToString` writes; `None` for anything else. */
  function ParseInteger(s: string): Option<int>
  {
    if |s| >= 2 && s[0] == '-' && forall i :: 1 <= i < |s| ==> IsDigit(s[i]) then
      var magnitude: int := DecimalValue(s[1..]);
      Some(-magnitude)
    else if |s| >= 1 && forall i :: 0 <= i < |s| ==> IsDigit(s[i]) then
      Some(DecimalValue(s))
    else
      None
  }

  lemma {:induction false} DecimalValueOfNat(n: nat)
    ensures DecimalValue(NatToDecimal(n)) == n
  {
    if n >= 10 {
      var r := NatToDecimal(n);
      assert r[..|r| - 1] == NatToDecimal(n / 10);
      DecimalValueOfNat(n / 10);
    }
  }

  /** `String` is injective on integers: the text gives the number back. */
  lemma NumberToStringRoundTrip(n: int)
    ensures ParseInteger(NumberToString(n)) == Some(n)
  {
    if n < 0 {
      NegativeRoundTrip(n);
    } else {
      var r := NatToDecimal(n);
      assert r[0] != '-' by { assert IsDigit(r[0]); }
      DecimalValueOfNat(n);
    }
  }

  lemma NegativeRoundTrip(n: int)
    requires n < 0
    ensures ParseInteger(NumberToString(n)) == Some(n)
  {
    var digits := NatToDecimal(-n);
    var r := "-" + digits;
    assert r[1..] == digits;
    assert forall i :: 1 <= i < |r| ==> IsDigit(r[i]) by {
      forall i | 1 <= i < |r| ensures IsDigit(r[i]) { assert r[i] == digits[i - 1]; }
    }
    DecimalValueOfNat(-n);
    var magnitude: int := DecimalValue(digits);
    assert ParseInteger(r) == Some(-magnitude);
  }

  // ---------------------------------------------------------------------
  // String comparison: UTF-16 code-unit order
  // ---------------------------------------------------------------------

  /**
   * The first UTF-16 code unit of a character: the character itself in the
   * Basic Multilingual Plane, its high surrogate above it.
   */
  function FirstCodeUnit(c: char): (u: int)
    ensures 0 <= u < 0x10000
    ensures c as int < 0x10000 ==> u == c as int
    ensures c as int >= 0x10000 ==> 0xD800 <= u < 0xDC00
  {
    if c as int < 0x10000 then c as int else 0xD800 + (c as int - 0x10000) / 0x400
  }

  /**
   * Whether the UTF-16 encoding of `a` comes before that of `b`. Characters
   * are Unicode scalar values (never surrogates), so two different characters
   * with the same first unit both lie above the BMP and their low surrogates
   * order them as their code points do.
   */
  predicate UnitBefore(a: char, b: char)
  {
    FirstCodeUnit(a) < FirstCodeUnit(b) || (FirstCodeUnit(a) == FirstCodeUnit(b) && a < b)
  }

  /** JavaScript's `a < b` on strings: lexicographic by code unit, a proper prefix first. */
  predicate Less(a: string, b: string)
    decreases |a|
  {
    if |a| == 0 then |b| > 0
    else if |b| == 0 then false
    else if a[0] == b[0] then Less(a[1..], b[1..])
    else UnitBefore(a[0], b[0])
  }

  lemma {:induction false} LessIrreflexive(a: string)
    ensures !Less(a, a)
  {
    if |a| > 0 {
      LessIrreflexive(a[1..]);
    }
  }

  lemma {:induction false} LessAsymmetric(a: string, b: string)
    ensures Less(a, b) ==> !Less(b, a)
  {
    if |a| > 0 && |b| > 0 && a[0] == b[0] {
      LessAsymmetric(a[1..], b[1..]);
    }
  }

  lemma {:induction false} LessTransitive(a: string, b: string, c: string)
    requires Less(a, b) && Less(b, c)
    ensures Less(a, c)
  {
    if |a| > 0 && a[0] == b[0] && b[0] == c[0] {
      LessTransitive(a[1..], b[1..], c[1..]);
    }
  }

  lemma {:induction false} LessTotal(a: string, b: string)
    requires a != b
    ensures Less(a, b) || Less(b, a)
  {
    if |a| > 0 && |b| > 0 && a[0] == b[0] {
      assert a == [a[0]] + a[1..] && b == [b[0]] + b[1..];
      LessTotal(a[1..], b[1..]);
    }
  }

  /** Strings that differ in their first character are ordered by it. */
  lemma LessAtFirst(a: string, b: string)
    requires |a| > 0 && |b| > 0 && a[0] != b[0]
    ensures Less(a, b) == UnitBefore(a[0], b[0])
  {
  }

  /** A common prefix does not decide the order: the remainders do. */
  lemma {:induction false} LessAfterCommonPrefix(p: string, x: string, y: string)
    ensures Less(p + x, p + y) == Less(x, y)
  {
    if |p| > 0 {
      assert (p + x)[1..] == p[1..] + x && (p + y)[1..] == p[1..] + y;
      LessAfterCommonPrefix(p[1..], x, y);
    } else {
      assert p + x == x && p + y == y;
    }
  }

  // ---------------------------------------------------------------------
  // Array.prototype.sort() with no comparator
  // ---------------------------------------------------------------------

  /** Ascending in JavaScript's string order. */
  predicate Sorted(s: seq<string>)
  {
    forall i, j :: 0 <= i < j < |s| ==> !Less(s[j], s[i])
  }

  function Insert(x: string, s: seq<string>): (r: seq<string>)
    requires Sorted(s)
    ensures Sorted(r)
    ensures multiset(r) == multiset(s) + multiset{x}
  {
    if s == [] || !Less(s[0], x) then
      assert forall j :: 0 <= j < |s| ==> !Less(s[j], x) by {
        forall j | 0 <= j < |s| ensures !Less(s[j], x) {
          if Less(s[j], x) {
            LessAsymmetric(s[0], s[j]);
            if s[0] != s[j] { LessTotal(s[0], s[j]); }
            if Less(s[0], s[j]) { LessTransitive(s[0], s[j], x); }
          }
        }
      }
      [x] + s
    else
      var rest := Insert(x, s[1..]);
      assert s == [s[0]] + s[1..];
      assert forall j :: 0 <= j < |rest| ==> !Less(rest[j], s[0]) by {
        forall j | 0 <= j < |rest| ensures !Less(rest[j], s[0]) {
          assert rest[j] in multiset(rest);
          if rest[j] == x {
            LessAsymmetric(s[0], x);
          } else {
            assert rest[j] in s[1..];
          }
        }
      }
      [s[0]] + rest
  }

  /**
   * The default sort. Any algorithm meeting this contract gives the same
   * sequence (`SortedUnique`), so the engine's choice of algorithm is immaterial.
   */
  function Sort(s: seq<string>): (r: seq<string>)
    ensures Sorted(r)
    ensures multiset(r) == multiset(s)
  {
    if s == [] then [] else
      assert s == [s[0]] + s[1..];
      Insert(s[0], Sort(s[1..]))
  }

  /** Two sorted arrangements of the same strings start alike. */
  lemma SameHead(a: seq<string>, b: seq<string>)
    requires Sorted(a) && Sorted(b) && a != []
    requires multiset(a) == multiset(b)
    ensures b != [] && a[0] == b[0]
  {
    assert a[0] in multiset(b);
    assert b[0] in multiset(a);
    SortedHeadIsLeast(b, a[0]);
    SortedHeadIsLeast(a, b[0]);
    if a[0] != b[0] { LessTotal(a[0], b[0]); }
  }

  lemma SortedTail(a: seq<string>)
    requires Sorted(a) && a != []
    ensures Sorted(a[1..])
  {
    var t := a[1..];
    forall i, j | 0 <= i < j < |t| ensures !Less(t[j], t[i]) {
      assert t[i] == a[i + 1] && t[j] == a[j + 1];
    }
  }

  lemma SameTail(a: seq<string>, b: seq<string>)
    requires a != [] && b != [] && a[0] == b[0]
    requires multiset(a) == multiset(b)
    ensures multiset(a[1..]) == multiset(b[1..])
  {
    assert a == [a[0]] + a[1..] && b == [b[0]] + b[1..];
    assert multiset(a[1..]) == multiset(a) - multiset{a[0]};
    assert multiset(b[1..]) == multiset(b) - multiset{b[0]};
  }

  /** Two sorted arrangements of the same strings are the same sequence. */
  lemma {:induction false} SortedUnique(a: seq<string>, b: seq<string>)
    requires Sorted(a) && Sorted(b)
    requires multiset(a) == multiset(b)
    ensures a == b
  {
    if a != [] {
      SameHead(a, b);
      SameTail(a, b);
      SortedTail(a);
      SortedTail(b);
      SortedUnique(a[1..], b[1..]);
      assert a == [a[0]] + a[1..] && b == [b[0]] + b[1..];
    } else {
      assert |b| == |multiset(b)| == 0;
    }
  }

  /** Two strings in strictly ascending order are sorted. */
  lemma SortedTwo(x: string, y: string)
    requires Less(x, y)
    ensures Sorted([x, y])
  {
    LessAsymmetric(x, y);
    var s := [x, y];
    assert forall i, j | 0 <= i < j < 2 :: s[i] == x && s[j] == y;
  }

  /** Three strings in strictly ascending order are sorted. */
  lemma SortedThree(x: string, y: string, z: string)
    requires Less(x, y) && Less(y, z)
    ensures Sorted([x, y, z])
  {
    LessTransitive(x, y, z);
    LessAsymmetric(x, y);
    LessAsymmetric(y, z);
    LessAsymmetric(x, z);
    var s := [x, y, z];
    forall i, j | 0 <= i < j < 3 ensures !Less(s[j], s[i]) {
      if i == 0 && j == 1 { assert s[i] == x && s[j] == y; }
      else if i == 0 { assert s[i] == x && s[j] == z; }
      else { assert s[i] == y && s[j] == z; }
    }
  }

  lemma JoinTwo(x: string, y: string, sep: string)
    ensures Join([x, y], sep) == x + sep + y
  {
    assert [x, y][1..] == [y];
  }

  lemma JoinThree(x: string, y: string, z: string, sep: string)
    ensures Join([x, y, z], sep) == x + sep + y + sep + z
  {
    assert [x, y, z][1..] == [y, z];
    assert [y, z][1..] == [z];
    assert Join([z], sep) == z;
    assert Join([y, z], sep) == y + sep + z;
    assert Join([x, y, z], sep) == x + sep + (y + sep + z);
  }

  lemma SortedHeadIsLeast(a: seq<string>, x: string)
    requires Sorted(a) && x in multiset(a)
    ensures !Less(x, a[0])
  {
    var i :| 0 <= i < |a| && a[i] == x;
    if i == 0 { LessIrreflexive(x); }
  }

  // ---------------------------------------------------------------------
  // Array.prototype.join(sep) and String.prototype.split(c)
  // ---------------------------------------------------------------------

  /** The parts with `sep` between neighbours; nothing before the first or after the last. */
  function Join(parts: seq<string>, sep: string): string
  {
    if |parts| == 0 then ""
    else if |parts| == 1 then parts[0]
    else parts[0] + sep + Join(parts[1..], sep)
  }

  /** `s.split(c)`: the maximal pieces of `s` free of `c`; always at least one piece. */
  function Split(s: string, c: char): (r: seq<string>)
    ensures |r| >= 1
  {
    if s == [] then [""]
    else
      var rest := Split(s[1..], c);
      if s[0] == c then [""] + rest else [[s[0]] + rest[0]] + rest[1..]
  }

  lemma {:induction false} SplitPiecesFree(s: string, c: char)
    ensures forall i :: 0 <= i < |Split(s, c)| ==> c !in Split(s, c)[i]
  {
    if s != [] {
      SplitPiecesFree(s[1..], c);
    }
  }

  /** Joining the pieces with the separator restores the string. */
  lemma {:induction false} JoinSplit(s: string, c: char)
    ensures Join(Split(s, c), [c]) == s
  {
    if s != [] {
      var rest := Split(s[1..], c);
      JoinSplit(s[1..], c);
      if s[0] == c {
        assert Split(s, c)[1..] == rest;
      } else {
        var r := Split(s, c);
        if |rest| > 1 {
          assert r[1..] == rest[1..];
          assert Join(rest, [c]) == rest[0] + [c] + Join(rest[1..], [c]);
        }
      }
    }
  }

  /** Splitting a join of separator-free parts gives the parts back. */
  lemma {:induction false} SplitJoin(parts: seq<string>, c: char)
    requires |parts| >= 1
    requires forall i :: 0 <= i < |parts| ==> c !in parts[i]
    ensures Split(Join(parts, [c]), c) == parts
  {
    if |parts| == 1 {
      SplitFree(parts[0], c);
    } else {
      SplitJoin(parts[1..], c);
      SplitAfterFree(parts[0], Join(parts[1..], [c]), c);
      assert parts == [parts[0]] + parts[1..];
    }
  }

  /** A string without the separator is a single piece. */
  lemma {:induction false} SplitFree(s: string, c: char)
    requires c !in s
    ensures Split(s, c) == [s]
  {
    if s != [] {
      SplitFree(s[1..], c);
      assert s[0] != c && [s[0]] + s[1..] == s;
    }
  }

  /** A separator-free head becomes the first piece; the rest splits on its own. */
  lemma {:induction false} SplitAfterFree(head: string, tail: string, c: char)
    requires c !in head
    ensures Split(head + [c] + tail, c) == [head] + Split(tail, c)
  {
    if head == [] {
      assert head + [c] + tail == [c] + tail;
      assert ([c] + tail)[1..] == tail;
    } else {
      assert (head + [c] + tail)[1..] == head[1..] + [c] + tail;
      SplitAfterFree(head[1..], tail, c);
      assert [head[0]] + head[1..] == head;
    }
  }

  /** The first piece is everything before the first separator. */
  lemma {:induction false} SplitFirstPiece(head: string, tail: string, c: char)
    requires c !in head
    requires tail == [] || tail[0] == c
    ensures Split(head + tail, c)[0] == head
  {
    if tail == [] {
      assert head + tail == head;
      SplitFree(head, c);
    } else {
      assert head + tail == head + [c] + tail[1..];
      SplitAfterFree(head, tail[1..], c);
    }
  }

  // ---------------------------------------------------------------------
  // Math.round(num / den)
  // ---------------------------------------------------------------------

  /**
   * `Math.round(num / den)` for an exact quotient: the nearest integer, a
   * half rounding up (towards +infinity, as `Math.round` does).
   */
  function RoundQuotient(num: int, den: int): (r: int)
    requires den > 0
    ensures 2 * den * r - den <= 2 * num < 2 * den * r + den
  {
    var q := (2 * num + den) / (2 * den);
    assert 2 * num + den == 2 * den * q + (2 * num + den) % (2 * den);
    q
  }

  /** The bracket in `RoundQuotient`'s contract pins down a single integer. */
  lemma RoundQuotientUnique(num: int, den: int, r: int)
    requires den > 0
    requires 2 * den * r - den <= 2 * num < 2 * den * r + den
    ensures r == RoundQuotient(num, den)
  {
    var q := RoundQuotient(num, den);
    if r < q {
      assert 2 * den * (q - r) < 2 * den;
      ProductAtLeast(2 * den, q - r);
    } else if r > q {
      assert 2 * den * (r - q) < 2 * den;
      ProductAtLeast(2 * den, r - q);
    }
  }

  lemma RoundQuotientMonotone(n1: int, n2: int, den: int)
    requires den > 0 && n1 <= n2
    ensures RoundQuotient(n1, den) <= RoundQuotient(n2, den)
  {
    var r1, r2 := RoundQuotient(n1, den), RoundQuotient(n2, den);
    if r1 > r2 {
      assert 2 * den * (r1 - r2) < 2 * den;
      ProductAtLeast(2 * den, r1 - r2);
    }
  }

  lemma ProductAtLeast(a: int, k: int)
    requires a > 0 && k >= 1
    ensures a * k >= a
  {
    assert a * k == a + a * (k - 1);
  }
}
