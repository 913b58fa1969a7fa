/**
 * Text helpers the converter relies on: the string an appending StringBuilder
 * accumulates, character counting, String.repeat, literal character
 * replacement (the only use of replaceAll in the converter) and the decimal
 * form of a counter (StringBuilder.append(int)).
 */
module Strings {

  /** The text a StringBuilder holds after appending the pieces in order. */
  function Concat(pieces: seq<string>): string
  {
    if pieces == [] then "" else Concat(pieces[..|pieces| - 1]) + pieces[|pieces| - 1]
  }

  lemma {:induction false} ConcatAppend(pieces: seq<string>, last: string)
    ensures Concat(pieces + [last]) == Concat(pieces) + last
  {
    assert (pieces + [last])[..|pieces|] == pieces;
  }

  /** Appending two runs of pieces yields the two texts one after the other. */
  lemma {:induction false} ConcatJoin(a: seq<string>, b: seq<string>)
    ensures Concat(a + b) == Concat(a) + Concat(b)
    decreases |b|
  {
    if b == [] {
      assert a + b == a;
    } else {
      var front := b[..|b| - 1];
      var last := b[|b| - 1];
      assert b == front + [last];
      assert a + b == (a + front) + [last];
      ConcatAppend(a + front, last);
      ConcatJoin(a, front);
      ConcatAppend(front, last);
    }
  }

  /** Piece i sits between the text of the pieces before it and those after it. */
  lemma {:induction false} ConcatSplit(pieces: seq<string>, i: nat)
    requires i < |pieces|
    ensures Concat(pieces) == Concat(pieces[..i]) + pieces[i] + Concat(pieces[i + 1..])
  {
    var front, back := pieces[..i + 1], pieces[i + 1..];
    assert pieces == front + back;
    ConcatJoin(front, back);
    assert front == pieces[..i] + [pieces[i]];
    ConcatAppend(pieces[..i], pieces[i]);
  }

  lemma {:induction false} AppendAssoc(a: string, b: string, c: string)
    ensures (a + b) + c == a + (b + c)
  {
  }

  /** Number of occurrences of c in s. */
  function Count(c: char, s: string): nat
  {
    if s == [] then 0 else (if s[0] == c then 1 else 0) + Count(c, s[1..])
  }

  lemma {:induction false} CountZero(c: char, s: string)
    ensures Count(c, s) == 0 <==> c !in s
  {
    if s != [] {
      CountZero(c, s[1..]);
      assert s == [s[0]] + s[1..];
    }
  }

  lemma {:induction false} CountAppend(c: char, a: string, b: string)
    ensures Count(c, a + b) == Count(c, a) + Count(c, b)
  {
    if a != [] {
      assert (a + b)[1..] == a[1..] + b;
      CountAppend(c, a[1..], b);
    } else {
      assert a + b == b;
    }
  }

  /** When every piece holds c exactly k times, the whole text holds it k times per piece. */
  lemma {:induction false} CountConcatUniform(c: char, pieces: seq<string>, k: nat)
    requires forall i :: 0 <= i < |pieces| ==> Count(c, pieces[i]) == k
    ensures Count(c, Concat(pieces)) == k * |pieces|
    decreases |pieces|
  {
    if pieces != [] {
      var front := pieces[..|pieces| - 1];
      CountConcatUniform(c, front, k);
      CountAppend(c, Concat(front), pieces[|pieces| - 1]);
    }
  }

  /** String.repeat: n copies of s. */
  function Repeat(s: string, n: nat): string
  {
    if n == 0 then "" else Repeat(s, n - 1) + s
  }

  lemma {:induction false} RepeatLength(s: string, n: nat)
    ensures |Repeat(s, n)| == n * |s|
  {
    if n > 0 {
      RepeatLength(s, n - 1);
    }
  }

  /** n copies of a single character c: n characters, each of them c. */
  lemma {:induction false} RepeatChar(c: char, n: nat)
    ensures |Repeat([c], n)| == n
    ensures forall i :: 0 <= i < n ==> Repeat([c], n)[i] == c
  {
    if n > 0 {
      RepeatChar(c, n - 1);
    }
  }

  lemma {:induction false} CountRepeat(c: char, s: string, n: nat)
    ensures Count(c, Repeat(s, n)) == n * Count(c, s)
  {
    if n > 0 {
      CountRepeat(c, s, n - 1);
      CountAppend(c, Repeat(s, n - 1), s);
    }
  }

  /** Literal replacement of every occurrence of the character c by rep. */
  function ReplaceChar(s: string, c: char, rep: string): string
  {
    if s == [] then ""
    else (if s[0] == c then rep else [s[0]]) + ReplaceChar(s[1..], c, rep)
  }

  /** A text without c is left unchanged. */
  lemma {:induction false} ReplaceCharIdentity(s: string, c: char, rep: string)
    requires c !in s
    ensures ReplaceChar(s, c, rep) == s
  {
    if s != [] {
      ReplaceCharIdentity(s[1..], c, rep);
      assert s == [s[0]] + s[1..];
    }
  }

  /** Characters other than c are kept, and each occurrence of c contributes the characters of rep. */
  lemma {:induction false} CountReplaceChar(d: char, s: string, c: char, rep: string)
    ensures Count(d, ReplaceChar(s, c, rep))
         == (if d == c then 0 else Count(d, s)) + Count(d, rep) * Count(c, s)
  {
    if s != [] {
      CountReplaceChar(d, s[1..], c, rep);
      var head := if s[0] == c then rep else [s[0]];
      CountAppend(d, head, ReplaceChar(s[1..], c, rep));
      assert [s[0]][1..] == [];
      var k, m := Count(d, rep), Count(c, s[1..]);
      if s[0] == c {
        assert Count(c, s) == m + 1;
        assert k * (m + 1) == k * m + k;
      } else {
        assert Count(c, s) == m;
      }
    }
  }

  /** The length grows by |rep| - 1 for each replaced occurrence. */
  lemma {:induction false} ReplaceCharLength(s: string, c: char, rep: string)
    ensures |ReplaceChar(s, c, rep)| == |s| + (|rep| - 1) * Count(c, s)
  {
    if s != [] {
      ReplaceCharLength(s[1..], c, rep);
    }
  }

  /** Every c in r is directly followed by tail. */
  predicate FollowedBy(r: string, c: char, tail: string)
  {
    forall j :: 0 <= j < |r| && r[j] == c ==> j + |tail| < |r| && r[j + 1..j + 1 + |tail|] == tail
  }

  /** When rep is c followed by a c-free tail, every c of the result is directly followed by that tail. */
  lemma {:induction false} ReplaceCharFollowed(s: string, c: char, tail: string)
    requires c !in tail
    ensures FollowedBy(ReplaceChar(s, c, [c] + tail), c, tail)
  {
    if s != [] {
      var head := if s[0] == c then [c] + tail else [s[0]];
      var rest := ReplaceChar(s[1..], c, [c] + tail);
      ReplaceCharFollowed(s[1..], c, tail);
      assert FollowedBy(rest, c, tail);
      var r := head + rest;
      assert r == ReplaceChar(s, c, [c] + tail);
      forall j | 0 <= j < |r| && r[j] == c
        ensures j + |tail| < |r| && r[j + 1..j + 1 + |tail|] == tail
      {
        if j < |head| {
          if s[0] == c {
            assert r[1..1 + |tail|] == head[1..];
          }
        } else {
          FollowedBySuffix(head, rest, c, tail, j);
        }
      }
    }
  }

  /** An occurrence of c inside the second part keeps the tail that follows it there. */
  lemma {:induction false} FollowedBySuffix(head: string, rest: string, c: char, tail: string, j: nat)
    requires FollowedBy(rest, c, tail)
    requires |head| <= j < |head + rest| && (head + rest)[j] == c
    ensures j + |tail| < |head + rest| && (head + rest)[j + 1..j + 1 + |tail|] == tail
  {
    var r, k := head + rest, j - |head|;
    assert rest[k] == r[j];
    assert k + |tail| < |rest| && rest[k + 1..k + 1 + |tail|] == tail;
    assert r[j + 1..j + 1 + |tail|] == rest[k + 1..k + 1 + |tail|];
  }

  predicate IsDigit(ch: char)
  {
    '0' <= ch <= '9'
  }

  predicate AllDigits(s: string)
  {
    forall i :: 0 <= i < |s| ==> IsDigit(s[i])
  }

  function DigitChar(d: nat): (ch: char)
    requires d < 10
    ensures IsDigit(ch)
  {
    ('0' as int + d) as char
  }

  function DigitValue(ch: char): (d: nat)
    requires IsDigit(ch)
    ensures d < 10 && DigitChar(d) == ch
  {
    ch as int - '0' as int
  }

  /** Integer.toString for a non-negative value: its decimal digits, no leading zeros. */
  function NatToString(n: nat): (r: string)
    ensures |r| >= 1 && AllDigits(r)
    ensures |r| > 1 ==> r[0] != '0'
  {
    if n < 10 then [DigitChar(n)] else NatToString(n / 10) + [DigitChar(n % 10)]
  }

  /** Integer.parseInt on a string of decimal digits. */
  function DecimalValue(s: string): nat
    requires AllDigits(s)
  {
    if s == [] then 0 else DecimalValue(s[..|s| - 1]) * 10 + DigitValue(s[|s| - 1])
  }

  /** Parsing the decimal form of n gives n back, so distinct counters print differently. */
  lemma {:induction false} DecimalRoundTrip(n: nat)
    ensures DecimalValue(NatToString(n)) == n
  {
    if n >= 10 {
      DecimalRoundTrip(n / 10);
      var s := NatToString(n);
      assert s[..|s| - 1] == NatToString(n / 10);
    }
  }

  /** The longest prefix of s made of decimal digits. */
  function DigitPrefix(s: string): (r: string)
    ensures AllDigits(r) && |r| <= |s|
  {
    if s == [] || !IsDigit(s[0]) then "" else [s[0]] + DigitPrefix(s[1..])
  }

  lemma {:induction false} DigitPrefixOf(digits: string, rest: string)
    requires AllDigits(digits)
    requires rest == [] || !IsDigit(rest[0])
    ensures DigitPrefix(digits + rest) == digits
  {
    if digits == [] {
      assert digits + rest == rest;
    } else {
      assert (digits + rest)[1..] == digits[1..] + rest;
      DigitPrefixOf(digits[1..], rest);
      assert digits == [digits[0]] + digits[1..];
    }
  }
}
