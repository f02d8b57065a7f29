/**
 * Text helpers shared by the command-line tool and the serial console:
 * Rust's `FromStr` for unsigned integers (an optional '+', then one or more
 * ASCII digits, rejected when the value exceeds the type's maximum) and
 * `split` on a single separator.
 */
module Text {
  import opened Wrappers

  predicate IsDigit(c: char)
  {
    '0' <= c <= '9'
  }

  predicate AllDigits(s: string)
  {
    forall i | 0 <= i < |s| :: IsDigit(s[i])
  }

  /** The number a string of digits denotes, most significant digit first. */
  function Value(s: string): nat
    requires AllDigits(s)
  {
    if s == [] then 0 else 10 * Value(s[..|s| - 1]) + (s[|s| - 1] as int - '0' as int)
  }

  /** The digits after the optional sign, or None when `s` is empty or only a sign. */
  function DigitsOf(s: string): Option<string>
  {
    if |s| == 0 then None
    else if s[0] == '+' then (if |s| == 1 then None else Some(s[1..]))
    else Some(s)
  }

  /** `s.parse::<uN>()` where `max` is `uN::MAX`. */
  function ParseUnsigned(s: string, max: nat): (r: Option<nat>)
    ensures r.Some? <==> DigitsOf(s).Some? && AllDigits(DigitsOf(s).value) && Value(DigitsOf(s).value) <= max
    ensures r.Some? ==> r.value == Value(DigitsOf(s).value) && r.value <= max
  {
    match DigitsOf(s)
    case None => None
    case Some(d) => if AllDigits(d) && Value(d) <= max then Some(Value(d)) else None
  }

  /** The canonical decimal text of `n` (what `Display` prints). */
  function Show(n: nat): (s: string)
    ensures |s| > 0 && AllDigits(s) && s[0] != '+'
    ensures Value(s) == n
  {
    var last := ['0' + ((n % 10) as char)];
    assert Value(last) == n % 10 by {
      assert last[..0] == [];
    }
    if n < 10 then last
    else
      var s := Show(n / 10) + last;
      assert s[..|s| - 1] == Show(n / 10);
      s
  }

  /** Round trip: printing a number and parsing it back gives the number, for every value the type can hold. */
  lemma {:induction false} ParseShow(n: nat, max: nat)
    requires n <= max
    ensures ParseUnsigned(Show(n), max) == Some(n)
  {
  }

  /** Parsing also accepts a leading '+' and leading zeros. */
  lemma {:induction false} ParseShowLeadingZero(n: nat, max: nat)
    requires n <= max
    ensures ParseUnsigned("+" + Show(n), max) == Some(n)
    ensures ParseUnsigned("0" + Show(n), max) == Some(n)
  {
    ValuePrefixZero(Show(n));
    assert ("+" + Show(n))[1..] == Show(n);
  }

  lemma {:induction false} ValuePrefixZero(s: string)
    requires AllDigits(s)
    ensures AllDigits("0" + s) && Value("0" + s) == Value(s)
    decreases |s|
  {
    if s != [] {
      ValuePrefixZero(s[..|s| - 1]);
      assert ("0" + s)[..|"0" + s| - 1] == "0" + s[..|s| - 1];
    }
  }

  /** `s.split(sep)`: the pieces between separators, in order; empty text gives one empty piece. */
  function Split<T(==)>(s: seq<T>, sep: T): (r: seq<seq<T>>)
    ensures |r| > 0
    decreases |s|
  {
    if |s| == 0 then [[]]
    else
      var rest := Split(s[1..], sep);
      if s[0] == sep then [[]] + rest else [[s[0]] + rest[0]] + rest[1..]
  }

  function Join<T>(pieces: seq<seq<T>>, sep: T): seq<T>
    requires |pieces| > 0
  {
    if |pieces| == 1 then pieces[0] else pieces[0] + [sep] + Join(pieces[1..], sep)
  }

  /** Splitting loses nothing: the pieces joined with the separator give the text back. */
  lemma {:induction false} SplitJoin<T>(s: seq<T>, sep: T)
    ensures Join(Split(s, sep), sep) == s
    decreases |s|
  {
    if |s| > 0 {
      var rest := Split(s[1..], sep);
      SplitJoin(s[1..], sep);
      var r := Split(s, sep);
      if s[0] == sep {
        assert r == [[]] + rest && r[0] == [] && r[1..] == rest;
        assert Join(r, sep) == [] + [sep] + Join(rest, sep);
        assert s == [sep] + s[1..];
      } else if |rest| == 1 {
        assert r == [[s[0]] + rest[0]];
        assert Join(rest, sep) == rest[0];
        assert s == [s[0]] + s[1..];
      } else {
        assert r[0] == [s[0]] + rest[0] && r[1..] == rest[1..];
        assert Join(rest, sep) == rest[0] + [sep] + Join(rest[1..], sep);
        assert Join(r, sep) == [s[0]] + (rest[0] + [sep] + Join(rest[1..], sep));
        assert s == [s[0]] + s[1..];
      }
    }
  }

  lemma {:induction false} SplitPiecesFree<T>(s: seq<T>, sep: T)
    ensures forall k, j | 0 <= k < |Split(s, sep)| && 0 <= j < |Split(s, sep)[k]| :: Split(s, sep)[k][j] != sep
    decreases |s|
  {
    if |s| > 0 {
      SplitPiecesFree(s[1..], sep);
      var rest := Split(s[1..], sep);
      var r := Split(s, sep);
      if s[0] != sep {
        forall k, j | 0 <= k < |r| && 0 <= j < |r[k]| ensures r[k][j] != sep {
          if k == 0 {
            if j > 0 { assert r[0][j] == rest[0][j - 1]; }
          } else {
            assert r[k] == rest[k];
          }
        }
      } else {
        forall k, j | 0 <= k < |r| && 0 <= j < |r[k]| ensures r[k][j] != sep {
          assert r[k] == rest[k - 1];
        }
      }
    }
  }

  /** Joining pieces that do not contain the separator and splitting again gives the pieces back. */
  lemma {:induction false} JoinSplit<T>(pieces: seq<seq<T>>, sep: T)
    requires |pieces| > 0
    requires forall k, j | 0 <= k < |pieces| && 0 <= j < |pieces[k]| :: pieces[k][j] != sep
    ensures Split(Join(pieces, sep), sep) == pieces
    decreases |pieces|
  {
    if |pieces| == 1 {
      SplitFreePrefix(pieces[0], [], sep);
      assert pieces[0] + [] == pieces[0];
    } else {
      var tail := Join(pieces[1..], sep);
      JoinSplit(pieces[1..], sep);
      SplitFreePrefix(pieces[0], [sep] + tail, sep);
      assert pieces[0] + [sep] + tail == pieces[0] + ([sep] + tail);
      assert ([sep] + tail)[1..] == tail;
      assert pieces[0] + [] == pieces[0];
      assert [pieces[0]] + pieces[1..] == pieces;
    }
  }

  /** A separator-free prefix joins the first piece of what follows it. */
  lemma {:induction false} SplitFreePrefix<T>(a: seq<T>, t: seq<T>, sep: T)
    requires forall j | 0 <= j < |a| :: a[j] != sep
    ensures Split(a + t, sep) == [a + Split(t, sep)[0]] + Split(t, sep)[1..]
    decreases |a|
  {
    if |a| == 0 {
      assert a + t == t;
      assert a + Split(t, sep)[0] == Split(t, sep)[0];
      assert [Split(t, sep)[0]] + Split(t, sep)[1..] == Split(t, sep);
    } else {
      SplitFreePrefix(a[1..], t, sep);
      assert (a + t)[1..] == a[1..] + t;
      assert [a[0]] + (a[1..] + Split(t, sep)[0]) == a + Split(t, sep)[0];
    }
  }
}
