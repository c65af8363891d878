/** String operations the report scripts take from Python's `str`:
    `s.split('\n')`, its first element, `'\n'.join(ms)` and the substring
    test `t in s`. Strings are sequences of characters. */
module Text {

  /** The part of `s` before its first line break, i.e. Python's
      `s.split('\n')[0]`, which is also `s.split('\n', 1)[0]`. The result is
      the longest prefix of `s` without a line break. */
  function FirstLine(s: string): (r: string)
    ensures r <= s
    ensures '\n' !in r
    ensures |r| == |s| || s[|r|] == '\n'
  {
    if s == [] || s[0] == '\n' then "" else [s[0]] + FirstLine(s[1..])
  }

  /** Python's `'\n'.join(ms)`. */
  function Join(ms: seq<string>): (r: string)
    ensures |ms| > 0 ==> ms[0] <= r
    ensures |ms| > 1 ==> |r| > |ms[0]| && r[|ms[0]|] == '\n'
  {
    if |ms| == 0 then ""
    else if |ms| == 1 then ms[0]
    else ms[0] + "\n" + Join(ms[1..])
  }

  /** Python's `s.split('\n')`: the pieces between line breaks, always at
      least one. */
  function Split(s: string): (r: seq<string>)
    ensures |r| >= 1
    ensures forall i :: 0 <= i < |r| ==> '\n' !in r[i]
  {
    if s == [] then [""]
    else
      var rest := Split(s[1..]);
      if s[0] == '\n' then [""] + rest
      else [[s[0]] + rest[0]] + rest[1..]
  }

  /** `t` occurs in `s` starting at position `k`. */
  predicate OccursAt(s: string, t: string, k: nat)
  {
    k + |t| <= |s| && s[k..k + |t|] == t
  }

  /** Python's substring test `t in s`. */
  function Contains(s: string, t: string): (b: bool)
    ensures b <==> exists k: nat :: OccursAt(s, t, k)
    decreases |s|
  {
    if |t| > |s| then false
    else if s[..|t|] == t then assert OccursAt(s, t, 0); true
    else
      var b := Contains(s[1..], t);
      assert b ==> exists k: nat :: OccursAt(s, t, k) by {
        if b {
          var k: nat :| OccursAt(s[1..], t, k);
          assert s[1..][k..k + |t|] == s[k + 1..k + 1 + |t|];
          assert OccursAt(s, t, k + 1);
        }
      }
      assert (exists k: nat :: OccursAt(s, t, k)) ==> b by {
        if exists k: nat :: OccursAt(s, t, k) {
          var k: nat :| OccursAt(s, t, k);
          assert k != 0;
          assert s[1..][k - 1..k - 1 + |t|] == s[k..k + |t|];
          assert OccursAt(s[1..], t, k - 1);
        }
      }
      b
  }

  /** `FirstLine` is the first piece of `Split`: the model's direct
      definition agrees with Python's `split('\n')[0]`. */
  lemma {:induction false} SplitHeadIsFirstLine(s: string)
    ensures Split(s)[0] == FirstLine(s)
  {
    if s != [] && s[0] != '\n' {
      SplitHeadIsFirstLine(s[1..]);
    }
  }

  /** Joining the pieces of a split gives back the string. */
  lemma {:induction false} JoinSplit(s: string)
    ensures Join(Split(s)) == s
  {
    if s != [] {
      var rest := Split(s[1..]);
      JoinSplit(s[1..]);
      if s[0] == '\n' {
        assert Split(s) == [""] + rest;
        assert Join(Split(s)) == "" + "\n" + Join(rest);
        assert s == [s[0]] + s[1..];
      } else {
        var head := [s[0]] + rest[0];
        assert Split(s) == [head] + rest[1..];
        if |rest| == 1 {
          assert Join(Split(s)) == head;
          assert Join(rest) == rest[0];
        } else {
          assert Split(s)[1..] == rest[1..];
          assert Join(Split(s)) == head + "\n" + Join(rest[1..]);
          assert Join(rest) == rest[0] + "\n" + Join(rest[1..]);
        }
        assert s == [s[0]] + s[1..];
      }
    }
  }

  /** A piece without line breaks splits into itself. */
  lemma {:induction false} SplitLine(x: string)
    requires '\n' !in x
    ensures Split(x) == [x]
  {
    if x != [] {
      SplitLine(x[1..]);
      assert [x[0]] + x[1..] == x;
    }
  }

  /** A line break ends the first piece. */
  lemma {:induction false} SplitAtBreak(x: string, y: string)
    requires '\n' !in x
    ensures Split(x + "\n" + y) == [x] + Split(y)
  {
    if x == [] {
      assert x + "\n" + y == ['\n'] + y;
      assert (['\n'] + y)[1..] == y;
    } else {
      assert (x + "\n" + y)[1..] == x[1..] + "\n" + y;
      SplitAtBreak(x[1..], y);
      assert [x[0]] + x[1..] == x;
    }
  }

  /** Splitting a join of break-free pieces gives back the pieces. */
  lemma {:induction false} SplitJoin(ms: seq<string>)
    requires |ms| >= 1
    requires forall i :: 0 <= i < |ms| ==> '\n' !in ms[i]
    ensures Split(Join(ms)) == ms
  {
    if |ms| == 1 {
      SplitLine(ms[0]);
    } else {
      SplitJoin(ms[1..]);
      SplitAtBreak(ms[0], Join(ms[1..]));
      assert [ms[0]] + ms[1..] == ms;
    }
  }

  /** A line break after `x` hides whatever follows from `FirstLine`. */
  lemma {:induction false} FirstLineBeforeBreak(x: string, y: string)
    ensures FirstLine(x + "\n" + y) == FirstLine(x)
  {
    if x == [] {
      assert (x + "\n" + y)[0] == '\n';
    } else if x[0] != '\n' {
      assert (x + "\n" + y)[1..] == x[1..] + "\n" + y;
      FirstLineBeforeBreak(x[1..], y);
    }
  }

  /** The first line of a join of a non-empty message list is the first line
      of its first message. */
  lemma {:induction false} FirstLineOfJoin(ms: seq<string>)
    requires |ms| > 0
    ensures FirstLine(Join(ms)) == FirstLine(ms[0])
  {
    if |ms| > 1 {
      FirstLineBeforeBreak(ms[0], Join(ms[1..]));
    }
  }

  /** A join is empty exactly when there is nothing to join or only one
      empty string: two or more pieces always leave a line break. */
  lemma JoinEmptyIff(ms: seq<string>)
    ensures Join(ms) == "" <==> (ms == [] || ms == [""])
  {
    if |ms| == 1 {
      assert ms == [ms[0]];
    }
  }
}
