/** The JavaScript string operations the ingestion loop and the KML builder
    rely on: `String.prototype.replace` with a one-character pattern (which
    replaces only the first occurrence) and `String.prototype.split` on a
    one-character separator. */
module Strings {

  /** The number of occurrences of `c` in `s`. */
  function Count(s: string, c: char): nat
  {
    if |s| == 0 then 0 else (if s[0] == c then 1 else 0) + Count(s[1..], c)
  }

  /** `s.replace(d, '')`: removes the first occurrence of `d` only
      (`RemoveFirstAt` states which one); a string without `d` comes back
      unchanged. */
  function RemoveFirst(s: string, d: char): (r: string)
    ensures d !in s ==> r == s
    ensures d in s ==> |r| == |s| - 1
  {
    if |s| == 0 then s
    else if s[0] == d then s[1..]
    else [s[0]] + RemoveFirst(s[1..], d)
  }

  /** `s.split(c)`: the pieces between separators, always at least one piece
      (`"".split(',')` is `[""]`). */
  function Split(s: string, c: char): (parts: seq<string>)
    ensures |parts| >= 1
  {
    if |s| == 0 then [""]
    else
      var rest := Split(s[1..], c);
      if s[0] == c then [""] + rest else [[s[0]] + rest[0]] + rest[1..]
  }

  /** `parts.join(c)`, the inverse of `Split`. */
  function Join(parts: seq<string>, c: char): string
    requires |parts| >= 1
  {
    if |parts| == 1 then parts[0] else parts[0] + [c] + Join(parts[1..], c)
  }

  /** Removing a character other than `c` does not change how many `c` there are. */
  lemma {:induction false} RemoveFirstKeepsCount(s: string, d: char, c: char)
    requires d != c
    ensures Count(RemoveFirst(s, d), c) == Count(s, c)
  {
    if |s| > 0 && s[0] != d {
      RemoveFirstKeepsCount(s[1..], d, c);
      assert ([s[0]] + RemoveFirst(s[1..], d))[1..] == RemoveFirst(s[1..], d);
    }
  }

  /** Splitting yields one more piece than there are separators. */
  lemma {:induction false} SplitLength(s: string, c: char)
    ensures |Split(s, c)| == Count(s, c) + 1
  {
    if |s| > 0 {
      SplitLength(s[1..], c);
    }
  }

  /** No piece of a split contains the separator. */
  lemma {:induction false} SplitPartsFree(s: string, c: char)
    ensures forall i :: 0 <= i < |Split(s, c)| ==> c !in Split(s, c)[i]
  {
    if |s| > 0 {
      SplitPartsFree(s[1..], c);
      var rest := Split(s[1..], c);
      if s[0] != c {
        assert c !in rest[0];
        assert c !in [s[0]] + rest[0];
      }
    }
  }

  /** Joining the pieces with the separator gives back the original string. */
  lemma {:induction false} JoinSplit(s: string, c: char)
    ensures Join(Split(s, c), c) == s
  {
    if |s| > 0 {
      JoinSplit(s[1..], c);
      var rest := Split(s[1..], c);
      if s[0] == c {
        assert Split(s, c)[1..] == rest;
        assert s == [c] + s[1..];
      } else {
        var parts := Split(s, c);
        if |rest| == 1 {
          assert s == [s[0]] + s[1..];
        } else {
          assert parts[1..] == rest[1..];
          assert Join(rest, c) == rest[0] + [c] + Join(rest[1..], c);
          assert s == [s[0]] + s[1..];
        }
      }
    }
  }

  /** A string without the separator splits into itself alone. */
  lemma {:induction false} SplitFree(s: string, c: char)
    requires c !in s
    ensures Split(s, c) == [s]
  {
    if |s| > 0 {
      SplitFree(s[1..], c);
      assert [s[0]] + s[1..] == s;
    }
  }

  /** Splitting at a separator that follows a separator-free prefix peels that
      prefix off as the first piece. */
  lemma {:induction false} SplitAt(a: string, c: char, b: string)
    requires c !in a
    ensures Split(a + [c] + b, c) == [a] + Split(b, c)
  {
    var s := a + [c] + b;
    if |a| == 0 {
      assert s == [c] + b;
      assert s[1..] == b;
    } else {
      assert s[1..] == a[1..] + [c] + b;
      SplitAt(a[1..], c, b);
      assert [a[0]] + a[1..] == a;
    }
  }

  /** Removing the first `d` from a string whose first `d` follows the
      `d`-free prefix `a` cuts out exactly that character. */
  lemma {:induction false} RemoveFirstAt(a: string, d: char, b: string)
    requires d !in a
    ensures RemoveFirst(a + [d] + b, d) == a + b
  {
    var s := a + [d] + b;
    if |a| == 0 {
      assert s == [d] + b;
    } else {
      var tail := a[1..] + [d] + b;
      assert s == [a[0]] + tail;
      assert a[0] != d;
      calc {
        RemoveFirst(s, d);
        [a[0]] + RemoveFirst(tail, d);
        { RemoveFirstAt(a[1..], d, b); }
        [a[0]] + (a[1..] + b);
        { assert [a[0]] + a[1..] == a; }
        a + b;
      }
    }
  }

  /** A character that does not occur is counted zero times. */
  lemma {:induction false} CountAbsent(s: string, c: char)
    requires c !in s
    ensures Count(s, c) == 0
  {
    if |s| > 0 {
      CountAbsent(s[1..], c);
    }
  }

  /** Occurrences of a character in a concatenation add up. */
  lemma {:induction false} CountConcat(a: string, b: string, c: char)
    ensures Count(a + b, c) == Count(a, c) + Count(b, c)
  {
    if |a| > 0 {
      CountConcat(a[1..], b, c);
      assert (a + b)[1..] == a[1..] + b;
    } else {
      assert a + b == b;
    }
  }
}
