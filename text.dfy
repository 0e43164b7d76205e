/** Byte strings and the few text operations of Rust's standard library and of
    the `itertools` crate that the renderer relies on: decimal formatting of
    integers, joining (`Itertools::join`), splitting and `str::lines`. Text is kept as its UTF-8 bytes, so lengths are byte lengths,
    as `String::len` measures them. */
module Text {

  /** One byte of UTF-8 encoded text. */
  type byte = b: int | 0 <= b < 256

  type Bytes = seq<byte>

  const NL: byte := 10
  const CR: byte := 13
  const SPACE: byte := 32
  const QUOTE: byte := 34
  const ZERO: byte := 48

  /** The UTF-8 encoding of an ASCII literal (each character below 128 is its own byte). */
  function Lit(s: string): (r: Bytes)
    ensures |r| == |s|
  {
    seq(|s|, i requires 0 <= i < |s| => (s[i] as int) % 256)
  }

  predicate IsDigit(b: byte) {
    ZERO <= b <= ZERO + 9
  }

  /** The decimal digits of n, most significant first, as `format!("{}", n)`
      writes an unsigned integer. */
  function Decimal(n: nat): (r: Bytes)
    ensures 1 <= |r|
    ensures forall i | 0 <= i < |r| :: IsDigit(r[i])
    decreases n
  {
    if n < 10 then [ZERO + n] else Decimal(n / 10) + [ZERO + n % 10]
  }

  /** The number a string of decimal digits denotes: the reading side of Decimal. */
  function DigitsValue(s: Bytes): nat
    decreases |s|
  {
    if |s| == 0 then 0
    else
      var last := s[|s| - 1];
      DigitsValue(s[..|s| - 1]) * 10 + (if IsDigit(last) then last - ZERO else 0)
  }

  /** Reading back the digits Decimal writes gives the number. */
  lemma {:induction false} DecimalRoundTrip(n: nat)
    ensures DigitsValue(Decimal(n)) == n
    decreases n
  {
    if n >= 10 {
      var d := Decimal(n / 10);
      assert Decimal(n)[..|Decimal(n)| - 1] == d;
      DecimalRoundTrip(n / 10);
    }
  }

  /** Decimal writes no leading zero: only 0 itself starts with the digit 0. */
  lemma {:induction false} DecimalNoLeadingZero(n: nat)
    ensures Decimal(n)[0] == ZERO <==> n == 0
    decreases n
  {
    if n >= 10 {
      DecimalNoLeadingZero(n / 10);
      assert Decimal(n)[0] == Decimal(n / 10)[0];
    }
  }

  /** The elements of xs with sep between consecutive ones, as
      `Itertools::join` builds the string. */
  function Join(sep: Bytes, xs: seq<Bytes>): Bytes
    decreases |xs|
  {
    if |xs| == 0 then []
    else if |xs| == 1 then xs[0]
    else xs[0] + sep + Join(sep, xs[1..])
  }

  /** Joining one more element appends the separator and that element. */
  lemma {:induction false} JoinSnoc(sep: Bytes, xs: seq<Bytes>, y: Bytes)
    requires 1 <= |xs|
    ensures Join(sep, xs + [y]) == Join(sep, xs) + sep + y
    decreases |xs|
  {
    if |xs| > 1 {
      assert (xs + [y])[1..] == xs[1..] + [y];
      JoinSnoc(sep, xs[1..], y);
    }
  }

  /** A byte absent from the separator and from every element is absent from the join. */
  lemma {:induction false} JoinAvoids(sep: Bytes, xs: seq<Bytes>, b: byte)
    requires b !in sep
    requires forall i | 0 <= i < |xs| :: b !in xs[i]
    ensures b !in Join(sep, xs)
    decreases |xs|
  {
    if |xs| > 1 {
      JoinAvoids(sep, xs[1..], b);
    }
  }

  /** The pieces of s between occurrences of b, as Rust's `str::split` yields
      them: an empty s gives one empty piece, and n occurrences of b give n + 1
      pieces. */
  function Split(s: Bytes, b: byte): (r: seq<Bytes>)
    ensures 1 <= |r|
    decreases |s|
  {
    if |s| == 0 then [[]]
    else
      var rest := Split(s[1..], b);
      if s[0] == b then [[]] + rest else [[s[0]] + rest[0]] + rest[1..]
  }

  /** Joining the pieces with the byte they were split at gives back the string. */
  lemma {:induction false} JoinSplit(s: Bytes, b: byte)
    ensures Join([b], Split(s, b)) == s
    decreases |s|
  {
    if |s| > 0 {
      var rest := Split(s[1..], b);
      JoinSplit(s[1..], b);
      if s[0] == b {
        assert Split(s, b) == [[]] + rest;
        assert ([[]] + rest)[1..] == rest;
      } else {
        var r := Split(s, b);
        assert r == [[s[0]] + rest[0]] + rest[1..];
        if |rest| > 1 {
          assert r[1..] == rest[1..];
          assert Join([b], rest) == rest[0] + [b] + Join([b], rest[1..]);
        }
      }
    }
  }

  /** No piece holds the byte the string was split at. */
  lemma {:induction false} SplitPiecesWithout(s: Bytes, b: byte)
    ensures forall i | 0 <= i < |Split(s, b)| :: b !in Split(s, b)[i]
    decreases |s|
  {
    if |s| > 0 {
      SplitPiecesWithout(s[1..], b);
    }
  }

  /** A byte absent from s is absent from every piece of it. */
  lemma {:induction false} SplitAvoids(s: Bytes, b: byte, c: byte)
    requires c !in s
    ensures forall i | 0 <= i < |Split(s, b)| :: c !in Split(s, b)[i]
    decreases |s|
  {
    if |s| > 0 {
      SplitAvoids(s[1..], b, c);
      assert c != s[0];
    }
  }

  /** A string without b is a single piece. */
  lemma {:induction false} SplitWithout(s: Bytes, b: byte)
    requires b !in s
    ensures Split(s, b) == [s]
    decreases |s|
  {
    if |s| > 0 {
      SplitWithout(s[1..], b);
      assert [s[0]] + s[1..] == s;
    }
  }

  /** An occurrence of b ends the pieces of what precedes it and starts those of what follows. */
  lemma {:induction false} SplitAt(a: Bytes, b: byte, c: Bytes)
    ensures Split(a + [b] + c, b) == Split(a, b) + Split(c, b)
    decreases |a|
  {
    var s := a + [b] + c;
    if |a| == 0 {
      assert s[1..] == c;
    } else {
      assert s[1..] == a[1..] + [b] + c;
      SplitAt(a[1..], b, c);
      SplitAtStep(a, b, c, Split(a[1..], b), Split(c, b));
    }
  }

  /** The inductive step of SplitAt, given the pieces of a[1..] and of c. */
  lemma SplitAtStep(a: Bytes, b: byte, c: Bytes, rest: seq<Bytes>, tail: seq<Bytes>)
    requires |a| > 0 && rest == Split(a[1..], b) && tail == Split(c, b)
    requires Split((a + [b] + c)[1..], b) == rest + tail
    ensures Split(a + [b] + c, b) == Split(a, b) + tail
  {
    var s := a + [b] + c;
    assert s[0] == a[0];
    ConsPieces(a[0], b, rest, tail);
  }

  /** The list algebra of SplitAtStep: a leading byte treats the pieces of
      a concatenation as it treats the pieces of its first part. */
  lemma ConsPieces(x: byte, b: byte, rest: seq<Bytes>, tail: seq<Bytes>)
    requires 1 <= |rest|
    ensures var joint := rest + tail;
      (if x == b then [[]] + joint else [[x] + joint[0]] + joint[1..])
      == (if x == b then [[]] + rest else [[x] + rest[0]] + rest[1..]) + tail
  {
    if x != b {
      assert (rest + tail)[1..] == rest[1..] + tail;
    }
  }

  /** A prefix without b joins the first piece of what follows it. */
  lemma {:induction false} SplitPrefix(p: Bytes, b: byte, e: Bytes)
    requires b !in p
    ensures Split(p + e, b) == [p + Split(e, b)[0]] + Split(e, b)[1..]
    decreases |p|
  {
    if |p| > 0 {
      assert (p + e)[1..] == p[1..] + e;
      SplitPrefix(p[1..], b, e);
      assert [p[0]] + (p[1..] + Split(e, b)[0]) == p + Split(e, b)[0];
    } else {
      assert p + e == e && p + Split(e, b)[0] == Split(e, b)[0];
      assert [Split(e, b)[0]] + Split(e, b)[1..] == Split(e, b);
    }
  }

  /** SplitPrefix, piece by piece: the pieces keep their number, and all but the first are unchanged. */
  lemma SplitPrefixPieces(p: Bytes, b: byte, e: Bytes)
    requires b !in p
    ensures var whole, rest := Split(p + e, b), Split(e, b);
      && |whole| == |rest|
      && whole[0] == p + rest[0]
      && forall j | 1 <= j < |rest| :: whole[j] == rest[j]
  {
    SplitPrefix(p, b, e);
  }

  /** Splitting a join at its separator byte gives back the elements, when none contains that byte. */
  lemma {:induction false} SplitJoin(xs: seq<Bytes>, b: byte)
    requires 1 <= |xs|
    requires forall i | 0 <= i < |xs| :: b !in xs[i]
    ensures Split(Join([b], xs), b) == xs
    decreases |xs|
  {
    if |xs| == 1 {
      SplitWithout(xs[0], b);
    } else {
      SplitJoin(xs[1..], b);
      SplitAt(xs[0], b, Join([b], xs[1..]));
      SplitWithout(xs[0], b);
      assert [xs[0]] + xs[1..] == xs;
    }
  }

  /** Drops one carriage return at the end of a line. */
  function StripCR(line: Bytes): Bytes {
    if |line| > 0 && line[|line| - 1] == CR then line[..|line| - 1] else line
  }

  /** The lines of s as Rust's `str::lines` yields them: s is cut at every line
      feed, a carriage return just before a line feed is dropped with it, and a
      final line feed does not start an extra empty line (so "" has no lines and
      "\n" has one empty line). */
  function Lines(s: Bytes): (r: seq<Bytes>)
    ensures forall i | 0 <= i < |r| :: NL !in r[i]
  {
    SplitPiecesWithout(s, NL);
    var parts := Split(s, NL);
    var n := |parts| - 1;
    seq(n, i requires 0 <= i < n => StripCR(parts[i])) + (if parts[n] == [] then [] else [parts[n]])
  }

  /** Without carriage returns, joining the lines with line feeds gives the
      string back, less one final line feed. */
  lemma LinesJoin(s: Bytes)
    requires CR !in s
    ensures Join([NL], Lines(s)) == if |s| > 0 && s[|s| - 1] == NL then s[..|s| - 1] else s
  {
    var parts := Split(s, NL);
    var n := |parts| - 1;
    SplitAvoids(s, NL, CR);
    assert seq(n, i requires 0 <= i < n => StripCR(parts[i])) == parts[..n];
    JoinSplit(s, NL);
    assert parts == parts[..n] + [parts[n]];
    if n == 0 {
      if parts[n] != [] {
        assert s == parts[0];
      }
    } else {
      JoinSnoc([NL], parts[..n], parts[n]);
      if parts[n] == [] {
        assert Lines(s) == parts[..n];
        assert s == Join([NL], parts[..n]) + [NL];
        assert s[..|s| - 1] == Join([NL], parts[..n]);
      } else {
        assert Lines(s) == parts;
        assert s[|s| - 1] == parts[n][|parts[n]| - 1];
      }
    }
  }

  /** Each element of xs with p in front. */
  function Prefixed(p: Bytes, xs: seq<Bytes>): (r: seq<Bytes>)
    ensures |r| == |xs|
    ensures forall i | 0 <= i < |xs| :: r[i] == p + xs[i]
  {
    seq(|xs|, i requires 0 <= i < |xs| => p + xs[i])
  }

  /** A prefix in front of a join whose separator ends in that prefix is the
      join of the prefixed elements. */
  lemma {:induction false} JoinPrefixed(p: Bytes, b: byte, xs: seq<Bytes>)
    requires 1 <= |xs|
    ensures p + Join([b] + p, xs) == Join([b], Prefixed(p, xs))
    decreases |xs|
  {
    if |xs| > 1 {
      JoinPrefixed(p, b, xs[1..]);
      assert Prefixed(p, xs)[1..] == Prefixed(p, xs[1..]);
      assert p + Join([b] + p, xs) == (p + xs[0]) + [b] + (p + Join([b] + p, xs[1..]));
    }
  }
}
