/** The JavaScript string and array operations the UI helpers are built from:
    String.prototype.split with a string separator, Array.prototype.join,
    and the decimal rendering of a non-negative integer in a template literal. */
module JsString {

  /** `sep` occurs in `s` starting at index `i`. */
  predicate OccursAt(s: string, sep: string, i: int)
  {
    0 <= i && i + |sep| <= |s| && s[i..i + |sep|] == sep
  }

  /** `sep` occurs somewhere in `s` (String.prototype.includes). */
  predicate Contains(s: string, sep: string)
  {
    exists i | 0 <= i <= |s| :: OccursAt(s, sep, i)
  }

  /** The scan behind `s.split(sep)` for a non-empty separator: `piece` is the
      part of the current piece already read; an occurrence of `sep` closes it. */
  function SplitFrom(s: string, sep: string, piece: string): (parts: seq<string>)
    requires sep != []
    ensures |parts| >= 1
    decreases |s|
  {
    if |s| < |sep| then [piece + s]
    else if s[..|sep|] == sep then [piece] + SplitFrom(s[|sep|..], sep, [])
    else SplitFrom(s[1..], sep, piece + [s[0]])
  }

  /** `s.split(sep)`: with the empty separator every character (a Unicode scalar
      value here, where JavaScript would use a UTF-16 code unit) is a piece
      (and the empty string gives no piece at all). */
  function Split(s: string, sep: string): (parts: seq<string>)
    ensures sep != [] ==> |parts| >= 1
    ensures sep == [] ==> |parts| == |s|
  {
    if sep == [] then seq(|s|, i requires 0 <= i < |s| => [s[i]])
    else SplitFrom(s, sep, [])
  }

  /** `parts.join(sep)`. */
  function Join(parts: seq<string>, sep: string): string
  {
    if |parts| == 0 then []
    else if |parts| == 1 then parts[0]
    else parts[0] + sep + Join(parts[1..], sep)
  }

  /** The last element of a non-empty array, as `pop()` returns it. */
  function Last<T>(s: seq<T>): T
    requires |s| > 0
  {
    s[|s| - 1]
  }

  lemma {:induction false} JoinSplitFrom(s: string, sep: string, piece: string)
    requires sep != []
    ensures Join(SplitFrom(s, sep, piece), sep) == piece + s
    decreases |s|
  {
    if |s| < |sep| {
    } else if s[..|sep|] == sep {
      var rest := SplitFrom(s[|sep|..], sep, []);
      JoinSplitFrom(s[|sep|..], sep, []);
      assert ([piece] + rest)[1..] == rest;
      assert s == sep + s[|sep|..];
    } else {
      JoinSplitFrom(s[1..], sep, piece + [s[0]]);
      assert piece + [s[0]] + s[1..] == piece + s;
    }
  }

  /** Joining the pieces of a split with the same separator gives the string back. */
  lemma {:induction false} JoinSplit(s: string, sep: string)
    ensures Join(Split(s, sep), sep) == s
  {
    if sep == [] {
      JoinChars(s);
    } else {
      JoinSplitFrom(s, sep, []);
    }
  }

  lemma {:induction false} JoinChars(s: string)
    ensures Join(Split(s, []), []) == s
    decreases |s|
  {
    var parts := Split(s, []);
    if |s| > 1 {
      assert parts[1..] == Split(s[1..], []);
      JoinChars(s[1..]);
      assert s == [s[0]] + s[1..];
    }
  }

  /** Where `sep` never occurs, the split is the whole string as one piece. */
  lemma {:induction false} SplitFromNoOccurrence(s: string, sep: string, piece: string)
    requires sep != []
    requires forall i :: !OccursAt(s, sep, i)
    ensures SplitFrom(s, sep, piece) == [piece + s]
    decreases |s|
  {
    if |s| >= |sep| {
      assert !OccursAt(s, sep, 0);
      forall i ensures !OccursAt(s[1..], sep, i) {
        if OccursAt(s[1..], sep, i) {
          assert s[1..][i..i + |sep|] == s[i + 1..i + 1 + |sep|];
          assert OccursAt(s, sep, i + 1);
        }
      }
      SplitFromNoOccurrence(s[1..], sep, piece + [s[0]]);
      assert piece + [s[0]] + s[1..] == piece + s;
    }
  }

  /** Where `sep` occurs exactly once, at index `k`, the split has two pieces:
      what comes before that occurrence and what comes after it. */
  lemma {:induction false} SplitFromOneOccurrence(s: string, sep: string, piece: string, k: nat)
    requires sep != []
    requires forall i :: OccursAt(s, sep, i) <==> i == k
    requires k + |sep| <= |s|
    ensures SplitFrom(s, sep, piece) == [piece + s[..k], s[k + |sep|..]]
    decreases k
  {
    assert OccursAt(s, sep, k);
    if k == 0 {
      var rest := s[|sep|..];
      NoOccurrenceAfterFirst(s, sep);
      SplitFromNoOccurrence(rest, sep, []);
      assert SplitFrom(s, sep, piece) == [piece] + SplitFrom(rest, sep, []);
      assert piece + s[..0] == piece && [] + rest == rest;
    } else {
      assert !OccursAt(s, sep, 0);
      OccurrencesOfTail(s, sep, k);
      SplitFromOneOccurrence(s[1..], sep, piece + [s[0]], k - 1);
      assert SplitFrom(s, sep, piece) == SplitFrom(s[1..], sep, piece + [s[0]]);
      assert s[1..][..k - 1] == s[1..k];
      assert piece + [s[0]] + s[1..k] == piece + s[..k];
      assert s[1..][k - 1 + |sep|..] == s[k + |sep|..];
    }
  }

  /** When `sep` occurs only at the start, it does not occur in what follows it. */
  lemma NoOccurrenceAfterFirst(s: string, sep: string)
    requires sep != [] && |sep| <= |s|
    requires forall i :: OccursAt(s, sep, i) <==> i == 0
    ensures forall i :: !OccursAt(s[|sep|..], sep, i)
  {
    var rest := s[|sep|..];
    forall i ensures !OccursAt(rest, sep, i) {
      if OccursAt(rest, sep, i) {
        assert rest[i..i + |sep|] == s[i + |sep|..i + |sep| + |sep|];
        assert OccursAt(s, sep, i + |sep|);
      }
    }
  }

  /** Occurrences in `s[1..]` are those of `s` shifted down by one. */
  lemma OccurrencesOfTail(s: string, sep: string, k: nat)
    requires sep != [] && 0 < k && k + |sep| <= |s|
    requires forall i :: OccursAt(s, sep, i) <==> i == k
    ensures forall i :: OccursAt(s[1..], sep, i) <==> i == k - 1
  {
    forall i ensures OccursAt(s[1..], sep, i) <==> i == k - 1 {
      if 0 <= i && i + |sep| <= |s| - 1 {
        assert s[1..][i..i + |sep|] == s[i + 1..i + 1 + |sep|];
      }
      assert OccursAt(s[1..], sep, i) <==> OccursAt(s, sep, i + 1);
    }
  }

  /** `r` is the longest suffix of `whole` that does not contain `c`: it has no `c`,
      it ends `whole`, and the character just before it, if any, is `c`. */
  predicate SuffixAfterLast(whole: string, c: char, r: string)
  {
    && c !in r
    && |r| <= |whole| && r == whole[|whole| - |r|..]
    && (|r| < |whole| ==> whole[|whole| - |r| - 1] == c)
  }

  /** Text put in front keeps the suffix, provided it ends in `c` where the suffix
      was the whole text. */
  lemma SuffixAfterLastExtend(prefix: string, t: string, c: char, r: string)
    requires SuffixAfterLast(t, c, r)
    requires |r| == |t| ==> |prefix| > 0 && prefix[|prefix| - 1] == c
    ensures SuffixAfterLast(prefix + t, c, r)
  {
    var w := prefix + t;
    assert w[|w| - |r|..] == t[|t| - |r|..];
    if |r| < |t| {
      assert w[|w| - |r| - 1] == t[|t| - |r| - 1];
    } else {
      assert w[|w| - |r| - 1] == prefix[|prefix| - 1];
    }
  }

  /** For a one-character separator `c`, the last piece of the split is the
      longest suffix of `piece + s` that does not contain `c`. */
  lemma {:induction false} LastPieceOfSplit(s: string, c: char, piece: string)
    requires c !in piece
    ensures SuffixAfterLast(piece + s, c, Last(SplitFrom(s, [c], piece)))
    decreases |s|
  {
    if |s| == 0 {
      assert piece + s == piece;
    } else if s[..1] == [c] {
      LastPieceOfSplit(s[1..], c, []);
      LastPieceAfterSeparator(s, c, piece);
    } else {
      LastPieceOfSplit(s[1..], c, piece + [s[0]]);
      LastPieceWithinPiece(s, c, piece);
    }
  }

  /** The step of `LastPieceOfSplit` where `s` starts with the separator. */
  lemma LastPieceAfterSeparator(s: string, c: char, piece: string)
    requires |s| > 0 && s[..1] == [c]
    requires SuffixAfterLast([] + s[1..], c, Last(SplitFrom(s[1..], [c], [])))
    ensures SuffixAfterLast(piece + s, c, Last(SplitFrom(s, [c], piece)))
  {
    var rest := SplitFrom(s[1..], [c], []);
    SplitFromSeparator(s, c, piece);
    EmptyPrefix(s[1..]);
    SuffixAfterLastExtend(piece + [c], s[1..], c, Last(rest));
    SplitHead(piece, s);
  }

  /** The step of `LastPieceOfSplit` where `s` starts with another character. */
  lemma LastPieceWithinPiece(s: string, c: char, piece: string)
    requires |s| > 0 && s[..1] != [c]
    requires SuffixAfterLast(piece + [s[0]] + s[1..], c, Last(SplitFrom(s[1..], [c], piece + [s[0]])))
    ensures SuffixAfterLast(piece + s, c, Last(SplitFrom(s, [c], piece)))
  {
    SplitFromOther(s, c, piece);
    SplitHead(piece, s);
  }

  lemma SplitFromSeparator(s: string, c: char, piece: string)
    requires |s| > 0 && s[..1] == [c]
    ensures Last(SplitFrom(s, [c], piece)) == Last(SplitFrom(s[1..], [c], []))
  {
    assert SplitFrom(s, [c], piece) == [piece] + SplitFrom(s[1..], [c], []);
  }

  lemma SplitFromOther(s: string, c: char, piece: string)
    requires |s| > 0 && s[..1] != [c]
    ensures SplitFrom(s, [c], piece) == SplitFrom(s[1..], [c], piece + [s[0]])
  {
  }

  lemma EmptyPrefix(s: string)
    ensures [] + s == s
  {
  }

  lemma SplitHead(piece: string, s: string)
    requires |s| > 0
    ensures piece + [s[0]] + s[1..] == piece + s
  {
    assert [s[0]] + s[1..] == s;
  }

  /** The same for the whole split: the last piece of `s.split(c)` is the longest
      suffix of `s` without `c`. */
  lemma LastPieceOfCharSplit(s: string, c: char)
    ensures SuffixAfterLast(s, c, Last(Split(s, [c])))
  {
    LastPieceOfSplit(s, c, []);
    assert [] + s == s;
  }

  // ---------------------------------------------------------------------------
  // Decimal rendering of a non-negative integer, as `${n}` prints a port number.

  function DigitChar(d: nat): (c: char)
    requires d < 10
    ensures '0' <= c <= '9'
  {
    ['0', '1', '2', '3', '4', '5', '6', '7', '8', '9'][d]
  }

  function DigitValue(c: char): (d: nat)
    requires '0' <= c <= '9'
    ensures d < 10 && DigitChar(d) == c
  {
    if c == '0' then 0 else if c == '1' then 1 else if c == '2' then 2
    else if c == '3' then 3 else if c == '4' then 4 else if c == '5' then 5
    else if c == '6' then 6 else if c == '7' then 7 else if c == '8' then 8 else 9
  }

  predicate AllDigits(s: string)
  {
    forall i :: 0 <= i < |s| ==> '0' <= s[i] <= '9'
  }

  /** The shortest decimal numeral of `n`. */
  function NatToString(n: nat): (s: string)
    ensures |s| >= 1 && AllDigits(s)
    ensures |s| > 1 ==> s[0] != '0'
  {
    if n < 10 then [DigitChar(n)] else NatToString(n / 10) + [DigitChar(n % 10)]
  }

  /** The value of a string of decimal digits. */
  function ParseDecimal(s: string): nat
    requires AllDigits(s)
  {
    if |s| == 0 then 0 else 10 * ParseDecimal(s[..|s| - 1]) + DigitValue(s[|s| - 1])
  }

  lemma {:induction false} ParseNatToString(n: nat)
    ensures ParseDecimal(NatToString(n)) == n
  {
    if n >= 10 {
      var s := NatToString(n);
      assert s[..|s| - 1] == NatToString(n / 10);
      ParseNatToString(n / 10);
      assert DigitChar(DigitValue(s[|s| - 1])) == DigitChar(n % 10);
      DigitCharInjective(DigitValue(s[|s| - 1]), n % 10);
    } else {
      DigitCharInjective(DigitValue(NatToString(n)[0]), n);
    }
  }

  lemma DigitCharInjective(a: nat, b: nat)
    requires a < 10 && b < 10 && DigitChar(a) == DigitChar(b)
    ensures a == b
  {
  }
}
