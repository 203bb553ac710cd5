/**
  Sequence and string helpers shared by both pipelines: list comprehensions,
  nested-loop flattening, Python slicing, `' '.join` and `re.split(' +', ...)`.
*/
module Seqs {

  /** `[f(x) for x in xs]`. */
  function Map<A, B>(f: A -> B, xs: seq<A>): (r: seq<B>)
    ensures |r| == |xs|
    ensures forall k :: 0 <= k < |xs| ==> r[k] == f(xs[k])
  {
    if xs == [] then [] else Map(f, xs[..|xs| - 1]) + [f(xs[|xs| - 1])]
  }

  lemma MapSnoc<A, B>(f: A -> B, xs: seq<A>, x: A)
    ensures Map(f, xs + [x]) == Map(f, xs) + [f(x)]
  {
    assert (xs + [x])[..|xs|] == xs;
  }

  /** The elements of a list of lists in the order two nested `for` loops visit them. */
  function Flatten<T>(xss: seq<seq<T>>): (r: seq<T>) {
    if xss == [] then [] else Flatten(xss[..|xss| - 1]) + xss[|xss| - 1]
  }

  lemma FlattenSnoc<T>(xss: seq<seq<T>>, xs: seq<T>)
    ensures Flatten(xss + [xs]) == Flatten(xss) + xs
  {
    assert (xss + [xs])[..|xss|] == xss;
  }

  /** One more outer iteration appends the next inner list. */
  lemma FlattenPrefix<T>(xss: seq<seq<T>>, n: nat)
    requires n < |xss|
    ensures Flatten(xss[..n + 1]) == Flatten(xss[..n]) + xss[n]
  {
    assert xss[..n + 1] == xss[..n] + [xss[n]];
    FlattenSnoc(xss[..n], xss[n]);
  }

  lemma {:induction false} FlattenAppend<T>(a: seq<seq<T>>, b: seq<seq<T>>)
    ensures Flatten(a + b) == Flatten(a) + Flatten(b)
    decreases |b|
  {
    if b == [] {
      assert a + b == a;
    } else {
      var n := |b| - 1;
      assert a + b == (a + b[..n]) + [b[n]];
      FlattenSnoc(a + b[..n], b[n]);
      FlattenAppend(a, b[..n]);
      FlattenSnoc(b[..n], b[n]);
      assert b == b[..n] + [b[n]];
    }
  }

  /** The elements before, in and after the inner list at index n. */
  lemma {:induction false} FlattenSplit<T>(xss: seq<seq<T>>, n: nat)
    requires n < |xss|
    ensures Flatten(xss) == Flatten(xss[..n]) + (xss[n] + Flatten(xss[n + 1..]))
    decreases |xss|
  {
    var m := |xss| - 1;
    var front := xss[..m];
    if n == m {
      assert xss[n + 1..] == [];
      assert xss[n] + [] == xss[n];
    } else {
      FlattenSplit(front, n);
      assert front[..n] == xss[..n] && front[n] == xss[n];
      var tail := front[n + 1..];
      assert xss[n + 1..] == tail + [xss[m]];
      FlattenSnoc(tail, xss[m]);
      var a, b := Flatten(xss[..n]), Flatten(tail);
      assert Flatten(xss) == (a + (xss[n] + b)) + xss[m];
      assert (a + (xss[n] + b)) + xss[m] == a + (xss[n] + (b + xss[m]));
    }
  }

  function Min(a: int, b: int): int {
    if a < b then a else b
  }

  /** Python's `xs[lo:hi]` for non-negative bounds: out-of-range bounds are clamped, never an error. */
  function PySlice<T>(xs: seq<T>, lo: nat, hi: nat): (r: seq<T>)
    ensures |r| == if lo < hi && lo < |xs| then Min(hi, |xs|) - lo else 0
    ensures forall k :: 0 <= k < |r| ==> r[k] == xs[lo + k]
  {
    if hi <= lo || |xs| <= lo then [] else xs[lo..Min(hi, |xs|)]
  }

  /** `' '.join(ts)`. */
  function JoinSpace(ts: seq<string>): string {
    if |ts| == 0 then ""
    else if |ts| == 1 then ts[0]
    else ts[0] + " " + JoinSpace(ts[1..])
  }

  /** Drops the run of spaces at the front of `s`. */
  function DropSpaces(s: string): (r: string)
    ensures |r| <= |s|
    ensures s != [] && s[0] == ' ' ==> |r| < |s|
  {
    if s != [] && s[0] == ' ' then DropSpaces(s[1..]) else s
  }

  /** `re.split(' +', s)`: the pieces between maximal runs of spaces; `cur` is the piece being read. */
  function SplitFrom(s: string, cur: string): seq<string>
    decreases |s|
  {
    if s == [] then [cur]
    else if s[0] == ' ' then [cur] + SplitFrom(DropSpaces(s), "")
    else SplitFrom(s[1..], cur + [s[0]])
  }

  function SplitSpaceRuns(s: string): seq<string> {
    SplitFrom(s, "")
  }

  /**
    The shape of every result of `re.split(' +', ...)`: at least one piece,
    no piece holds a space, and only the first and the last piece can be empty.
  */
  ghost predicate WellSplit(ts: seq<string>) {
    && |ts| >= 1
    && (forall k :: 0 <= k < |ts| ==> ' ' !in ts[k])
    && (forall k :: 0 < k < |ts| - 1 ==> ts[k] != "")
  }

  lemma {:induction false} SplitFromShape(s: string, cur: string)
    requires ' ' !in cur
    ensures WellSplit(SplitFrom(s, cur))
    ensures cur != "" || (s != [] && s[0] != ' ') ==> SplitFrom(s, cur)[0] != ""
    decreases |s|
  {
    if s == [] {
    } else if s[0] == ' ' {
      var d := DropSpaces(s);
      DropSpacesStops(s);
      SplitFromShape(d, "");
      var tail := SplitFrom(d, "");
      assert SplitFrom(s, cur) == [cur] + tail;
      assert d == [] ==> tail == [""];
    } else {
      assert ' ' !in cur + [s[0]];
      SplitFromShape(s[1..], cur + [s[0]]);
    }
  }

  lemma {:induction false} DropSpacesStops(s: string)
    ensures DropSpaces(s) == [] || DropSpaces(s)[0] != ' '
    decreases |s|
  {
    if s != [] && s[0] == ' ' {
      DropSpacesStops(s[1..]);
    }
  }

  /** `re.split(' +', s)` never yields zero pieces, a piece with a space, or an empty piece in the middle. */
  lemma SplitSpaceRunsShape(s: string)
    ensures WellSplit(SplitSpaceRuns(s))
  {
    SplitFromShape(s, "");
  }

  /** Reading a piece that holds no space only extends the current piece. */
  lemma {:induction false} SplitFromWord(t: string, rest: string, cur: string)
    requires ' ' !in t
    ensures SplitFrom(t + rest, cur) == SplitFrom(rest, cur + t)
    decreases |t|
  {
    if t == [] {
      assert t + rest == rest;
      assert cur + t == cur;
    } else {
      assert (t + rest)[0] == t[0];
      assert (t + rest)[1..] == t[1..] + rest;
      assert ' ' !in t[1..];
      SplitFromWord(t[1..], rest, cur + [t[0]]);
      assert cur + [t[0]] + t[1..] == cur + t;
    }
  }

  lemma {:induction false} JoinStartsWith(ts: seq<string>)
    requires |ts| >= 1
    ensures ts[0] <= JoinSpace(ts)
  {
  }

  /** Splitting on space runs undoes `' '.join` of any list of the shape a split produces. */
  lemma {:induction false} SplitJoin(ts: seq<string>)
    requires WellSplit(ts)
    ensures SplitSpaceRuns(JoinSpace(ts)) == ts
    decreases |ts|
  {
    if |ts| == 1 {
      SplitFromWord(ts[0], "", "");
      assert ts[0] + "" == ts[0];
      assert "" + ts[0] == ts[0];
    } else {
      var rest := ts[1..];
      var j := JoinSpace(rest);
      assert JoinSpace(ts) == ts[0] + (" " + j);
      SplitFromWord(ts[0], " " + j, "");
      assert "" + ts[0] == ts[0];
      assert (" " + j)[0] == ' ';
      assert (" " + j)[1..] == j;
      JoinStartsWith(rest);
      if |rest| >= 2 {
        assert rest[0] == ts[1] && ts[1] != "";
      }
      assert j == [] || j[0] != ' ' by {
        if j != [] {
          if rest[0] != "" {
            assert j[0] == rest[0][0];
            assert rest[0][0] in rest[0];
          } else {
            assert |rest| == 1;
          }
        }
      }
      assert DropSpaces(" " + j) == j;
      assert WellSplit(rest) by {
        forall k | 0 < k < |rest| - 1 ensures rest[k] != "" {
          assert rest[k] == ts[k + 1];
        }
      }
      SplitJoin(rest);
      assert SplitSpaceRuns(JoinSpace(ts)) == [ts[0]] + rest;
      assert [ts[0]] + rest == ts;
    }
  }

  /** Re-splitting the single-space join of a split gives the same tokens back. */
  lemma SplitJoinSplit(s: string)
    ensures SplitSpaceRuns(JoinSpace(SplitSpaceRuns(s))) == SplitSpaceRuns(s)
  {
    SplitSpaceRunsShape(s);
    SplitJoin(SplitSpaceRuns(s));
  }
}
