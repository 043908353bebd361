/**
 * The JavaScript string primitives the uploaders and the handler rely on:
 * `String.prototype.trim`, `split` on a one-character separator, `Array.prototype.join`,
 * and the whitespace class `\s` of regular expressions.
 */
module JsText {

  /**
   * ECMAScript's WhiteSpace and LineTerminator code points (tab, line feed, vertical tab,
   * form feed, carriage return, the space separators of Unicode category Zs, the line and
   * paragraph separators, and the byte-order mark). `trim()` strips exactly these, and the
   * regular-expression class `\s` matches exactly these.
   */
  predicate IsSpace(c: char)
  {
    c == '\t' || c == '\n' || c == '\U{B}' || c == '\U{C}' || c == '\r' || c == ' '
    || c == '\U{A0}' || c == '\U{1680}' || ('\U{2000}' <= c <= '\U{200A}')
    || c == '\U{2028}' || c == '\U{2029}' || c == '\U{202F}' || c == '\U{205F}'
    || c == '\U{3000}' || c == '\U{FEFF}'
  }

  predicate AllSpace(s: string)
  {
    forall k :: 0 <= k < |s| ==> IsSpace(s[k])
  }

  /** `s` neither starts nor ends with whitespace. */
  predicate Trimmed(s: string)
  {
    s == [] || (!IsSpace(s[0]) && !IsSpace(s[|s| - 1]))
  }

  /** Drops the leading whitespace of `s`. */
  function TrimStart(s: string): (r: string)
    ensures |r| <= |s| && r == s[|s| - |r|..]
    ensures AllSpace(s[..|s| - |r|])
    ensures r == [] || !IsSpace(r[0])
  {
    if |s| > 0 && IsSpace(s[0]) then
      var r := TrimStart(s[1..]);
      assert s[..|s| - |r|] == [s[0]] + s[1..][..|s| - 1 - |r|];
      r
    else s
  }

  /** Drops the trailing whitespace of `s`. */
  function TrimEnd(s: string): (r: string)
    ensures |r| <= |s| && r == s[..|r|]
    ensures AllSpace(s[|r|..])
    ensures r == [] || !IsSpace(r[|r| - 1])
  {
    if |s| > 0 && IsSpace(s[|s| - 1]) then
      var r := TrimEnd(s[..|s| - 1]);
      assert s[|r|..] == s[..|s| - 1][|r|..] + [s[|s| - 1]];
      r
    else s
  }

  /** `String.prototype.trim`. */
  function Trim(s: string): (r: string)
    ensures |r| <= |s|
    ensures Trimmed(r)
  {
    TrimEnd(TrimStart(s))
  }

  /** `r` is `s` with some whitespace removed at each end. */
  ghost predicate Padded(s: string, r: string)
  {
    exists i :: PaddedAt(s, r, i)
  }

  /** `r` occurs in `s` at index `i`, with only whitespace before and after it. */
  predicate PaddedAt(s: string, r: string, i: nat)
  {
    i <= |s| - |r| && s[i..i + |r|] == r && AllSpace(s[..i]) && AllSpace(s[i + |r|..])
  }

  /** Trim removes only surrounding whitespace, and nothing inside. */
  lemma TrimIsPadded(s: string)
    ensures Padded(s, Trim(s))
  {
    var t := TrimStart(s);
    var r := TrimEnd(t);
    var i := |s| - |t|;
    assert s[i..] == t;
    assert s[i..i + |r|] == t[..|r|];
    assert s[i + |r|..] == t[|r|..];
    assert PaddedAt(s, r, i);
  }

  /** Leading whitespace in front of a part that does not start with whitespace is all TrimStart drops. */
  lemma {:induction false} TrimStartOf(pad: string, q: string)
    requires AllSpace(pad) && (q == [] || !IsSpace(q[0]))
    ensures TrimStart(pad + q) == q
  {
    if pad != [] {
      assert (pad + q)[1..] == pad[1..] + q;
      TrimStartOf(pad[1..], q);
    }
  }

  /** Trailing whitespace behind a part that does not end with whitespace is all TrimEnd drops. */
  lemma {:induction false} TrimEndOf(q: string, pad: string)
    requires AllSpace(pad) && (q == [] || !IsSpace(q[|q| - 1]))
    ensures TrimEnd(q + pad) == q
  {
    if pad != [] {
      assert (q + pad)[..|q + pad| - 1] == q + pad[..|pad| - 1];
      TrimEndOf(q, pad[..|pad| - 1]);
    }
  }

  /**
   * Trim is the only way of removing surrounding whitespace that leaves no whitespace at
   * either end: an independent characterisation of the result.
   */
  lemma {:induction false} TrimUnique(s: string, r: string)
    requires Padded(s, r) && Trimmed(r)
    ensures r == Trim(s)
  {
    var i :| PaddedAt(s, r, i);
    TrimUniqueAt(s, r, i);
  }

  lemma TrimUniqueAt(s: string, r: string, i: nat)
    requires PaddedAt(s, r, i) && Trimmed(r)
    ensures r == Trim(s)
  {
    var front, back := s[..i], s[i + |r|..];
    assert s == front + r + back;
    if r == [] {
      TrimOfSpace(front, back);
    } else {
      TrimOfPadded(front, r, back);
    }
  }

  /** Whitespace alone trims to nothing. */
  lemma {:induction false} TrimOfSpace(front: string, back: string)
    requires AllSpace(front) && AllSpace(back)
    ensures Trim(front + [] + back) == []
  {
    var pad := front + [] + back;
    forall k | 0 <= k < |pad| ensures IsSpace(pad[k]) {
      if k < |front| { assert pad[k] == front[k]; } else { assert pad[k] == back[k - |front|]; }
    }
    TrimStartOf(pad, []);
    assert pad + [] == pad;
  }

  /** A core with no whitespace at either end is what trimming its padded form gives back. */
  lemma {:induction false} TrimOfPadded(front: string, r: string, back: string)
    requires AllSpace(front) && AllSpace(back) && r != [] && Trimmed(r)
    ensures Trim(front + r + back) == r
  {
    assert front + r + back == front + (r + back);
    TrimStartOf(front, r + back);
    TrimEndOf(r, back);
  }

  /** A string with no whitespace at either end is its own trim. */
  lemma TrimFixesTrimmed(s: string)
    requires Trimmed(s)
    ensures Trim(s) == s
  {
    TrimStartOf([], s);
    assert [] + s == s;
    TrimEndOf(s, []);
    assert s + [] == s;
  }

  /** Trimming twice is trimming once. */
  lemma TrimIdempotent(s: string)
    ensures Trim(Trim(s)) == Trim(s)
  {
    TrimFixesTrimmed(Trim(s));
  }

  /** The number of occurrences of `c` in `s`. */
  function Count(s: string, c: char): (n: nat)
    ensures n <= |s|
    ensures n == 0 <==> c !in s
  {
    if s == [] then 0 else (if s[0] == c then 1 else 0) + Count(s[1..], c)
  }

  /** `s.split(sep)` for a one-character separator. */
  function Split(s: string, sep: char): (r: seq<string>)
    ensures |r| == Count(s, sep) + 1
    ensures forall i :: 0 <= i < |r| ==> sep !in r[i]
  {
    if s == [] then [""]
    else
      var t := Split(s[1..], sep);
      if s[0] == sep then [""] + t else [[s[0]] + t[0]] + t[1..]
  }

  /** `xs.join(sep)`. */
  function Join(xs: seq<string>, sep: string): string
  {
    if |xs| == 0 then "" else if |xs| == 1 then xs[0] else xs[0] + sep + Join(xs[1..], sep)
  }

  /** Joining the pieces of a split gives the original string back. */
  lemma {:induction false} JoinSplit(s: string, sep: char)
    ensures Join(Split(s, sep), [sep]) == s
  {
    if s != [] {
      var t := Split(s[1..], sep);
      JoinSplit(s[1..], sep);
      if s[0] == sep {
        JoinCons("", t, [sep]);
        calc {
          Join(Split(s, sep), [sep]);
          Join([""] + t, [sep]);
          "" + [sep] + Join(t, [sep]);
          [s[0]] + s[1..];
          s;
        }
      } else {
        JoinExtendHead(s[0], t, [sep]);
        calc {
          Join(Split(s, sep), [sep]);
          Join([[s[0]] + t[0]] + t[1..], [sep]);
          [s[0]] + Join(t, [sep]);
          [s[0]] + s[1..];
          s;
        }
      }
    }
  }

  /** Joining a list with one more entry in front puts that entry and a separator in front. */
  lemma JoinCons(x: string, t: seq<string>, sep: string)
    requires |t| >= 1
    ensures Join([x] + t, sep) == x + sep + Join(t, sep)
  {
    assert ([x] + t)[1..] == t;
  }

  /** Extending the first entry of a list extends its join by the same character. */
  lemma JoinExtendHead(c: char, t: seq<string>, sep: string)
    requires |t| >= 1
    ensures Join([[c] + t[0]] + t[1..], sep) == [c] + Join(t, sep)
  {
    var r := [[c] + t[0]] + t[1..];
    if |t| > 1 {
      assert r[1..] == t[1..];
    }
  }

  /** A piece free of the separator is split off intact. */
  lemma {:induction false} SplitPrefix(a: string, sep: char, b: string)
    requires sep !in a
    ensures Split(a + [sep] + b, sep) == [a] + Split(b, sep)
  {
    if a == [] {
      assert a + [sep] + b == [sep] + b;
      SplitStep(sep, b, sep);
    } else {
      assert a + [sep] + b == [a[0]] + (a[1..] + [sep] + b);
      SplitPrefix(a[1..], sep, b);
      SplitStep(a[0], a[1..] + [sep] + b, sep);
      assert [a[0]] + a[1..] == a;
    }
  }

  /** One step of `split`: the first character either ends a piece or joins the first piece. */
  lemma SplitStep(c: char, rest: string, sep: char)
    ensures Split([c] + rest, sep) ==
      if c == sep then [""] + Split(rest, sep)
      else [[c] + Split(rest, sep)[0]] + Split(rest, sep)[1..]
  {
    assert ([c] + rest)[1..] == rest;
  }

  /** A string free of the separator is split into itself alone. */
  lemma {:induction false} SplitNoSeparator(a: string, sep: char)
    requires sep !in a
    ensures Split(a, sep) == [a]
  {
    if a != [] {
      SplitNoSeparator(a[1..], sep);
      assert [a[0]] + a[1..] == a;
    }
  }

  /** Splitting a join gives the pieces back, when no piece holds the separator. */
  lemma {:induction false} SplitJoin(xs: seq<string>, sep: char)
    requires |xs| >= 1
    requires forall i :: 0 <= i < |xs| ==> sep !in xs[i]
    ensures Split(Join(xs, [sep]), sep) == xs
  {
    if |xs| == 1 {
      SplitNoSeparator(xs[0], sep);
    } else {
      SplitJoin(xs[1..], sep);
      SplitPrefix(xs[0], sep, Join(xs[1..], [sep]));
      assert [xs[0]] + xs[1..] == xs;
    }
  }

  // ---------------------------------------------------------------------------
  // `xs.join(', ')` and its inverse

  /** Each entry with one space in front. */
  function Spaced(xs: seq<string>): (r: seq<string>)
    ensures |r| == |xs|
  {
    seq(|xs|, i requires 0 <= i < |xs| => " " + xs[i])
  }

  /** Each entry with its first character dropped (the space that `Spaced` added). */
  function Unspaced(xs: seq<string>): (r: seq<string>)
    ensures |r| == |xs|
  {
    seq(|xs|, i requires 0 <= i < |xs| => if xs[i] == [] then [] else xs[i][1..])
  }

  /** Dropping the added spaces gives the entries back. */
  lemma {:induction false} UnspacedSpaced(xs: seq<string>)
    ensures Unspaced(Spaced(xs)) == xs
  {
    forall i | 0 <= i < |xs| ensures Unspaced(Spaced(xs))[i] == xs[i] {
      assert (" " + xs[i])[1..] == xs[i];
    }
  }

  /** Joining with `", "` is joining the spaced entries with `","`, after one leading space. */
  lemma {:induction false} JoinCommaSpace(ys: seq<string>)
    requires |ys| >= 1
    ensures " " + Join(ys, ", ") == Join(Spaced(ys), ",")
  {
    if |ys| > 1 {
      JoinCommaSpace(ys[1..]);
      assert Spaced(ys)[1..] == Spaced(ys[1..]);
      assert Spaced(ys)[0] == " " + ys[0];
    }
  }

  /** The comma-and-space separated list read back: split on commas, then drop the space after each comma. */
  function SplitCommaSpace(s: string): (r: seq<string>)
    ensures |r| == Count(s, ',') + 1
  {
    var parts := Split(s, ',');
    [parts[0]] + Unspaced(parts[1..])
  }

  /** Reading a `", "`-joined list back gives the list, when no entry holds a comma. */
  lemma {:induction false} JoinCommaSpaceRoundTrip(xs: seq<string>)
    requires |xs| >= 1
    requires forall i :: 0 <= i < |xs| ==> ',' !in xs[i]
    ensures SplitCommaSpace(Join(xs, ", ")) == xs
  {
    var pieces := [xs[0]] + Spaced(xs[1..]);
    assert Join(xs, ", ") == Join(pieces, ",") by {
      if |xs| > 1 {
        JoinCommaSpace(xs[1..]);
        assert pieces[1..] == Spaced(xs[1..]);
      }
    }
    assert forall i :: 0 <= i < |pieces| ==> ',' !in pieces[i] by {
      forall i | 0 <= i < |pieces| ensures ',' !in pieces[i] {
        if i > 0 { assert pieces[i] == " " + xs[i]; }
      }
    }
    SplitJoin(pieces, ',');
    assert pieces[1..] == Spaced(xs[1..]);
    UnspacedSpaced(xs[1..]);
    assert [xs[0]] + xs[1..] == xs;
  }

  // ---------------------------------------------------------------------------
  // Decimal numerals, as a template literal prints a non-negative integer

  function DigitChar(d: nat): (c: char)
    requires d < 10
    ensures '0' <= c <= '9'
    ensures c as int - '0' as int == d
  {
    ('0' as int + d) as char
  }

  /** The decimal numeral of `n`, without leading zeros. */
  function DecimalString(n: nat): (r: string)
    ensures r != []
    ensures forall i :: 0 <= i < |r| ==> '0' <= r[i] <= '9'
    ensures |r| > 1 ==> r[0] != '0'
  {
    if n < 10 then [DigitChar(n)] else DecimalString(n / 10) + [DigitChar(n % 10)]
  }

  /** The value of a string of decimal digits. */
  function DecimalValue(s: string): nat
    requires forall i :: 0 <= i < |s| ==> '0' <= s[i] <= '9'
  {
    if s == [] then 0 else 10 * DecimalValue(s[..|s| - 1]) + (s[|s| - 1] as int - '0' as int)
  }

  /** Reading the numeral back gives the number. */
  lemma {:induction false} DecimalRoundTrip(n: nat)
    ensures DecimalValue(DecimalString(n)) == n
  {
    if n >= 10 {
      DecimalRoundTrip(n / 10);
      var s := DecimalString(n);
      assert s[..|s| - 1] == DecimalString(n / 10);
    }
  }
}
