/** Criteria that select some server descriptions out of a list. */
module ServerSelectors {

  /** The kinds of server a description can report. */
  datatype ServerType =
    | Unknown | Mongos | RSPrimary | RSSecondary | RSArbiter | RSOther | RSGhost | Standalone

  /** What a selector looks at in a server description: its address, its
      kind, and whether it accepts writes. */
  datatype ServerDescription = ServerDescription(host: string, port: nat, serverType: ServerType, isWritable: bool)

  /** `sub` is `xs` with some elements left out and the rest kept in their
      order. */
  predicate IsSubsequence(sub: seq<ServerDescription>, xs: seq<ServerDescription>)
    decreases |xs|
  {
    if sub == [] then true
    else if xs == [] then false
    else if sub[0] == xs[0] then IsSubsequence(sub[1..], xs[1..])
    else IsSubsequence(sub, xs[1..])
  }

  /** The list comprehension `[s for s in xs if keep(s)]`. */
  function Filter(xs: seq<ServerDescription>, keep: ServerDescription -> bool): (r: seq<ServerDescription>)
    ensures |r| <= |xs|
    decreases |xs|
  {
    if xs == [] then []
    else (if keep(xs[0]) then [xs[0]] else []) + Filter(xs[1..], keep)
  }

  /** Exactly the elements that pass the test survive the filter. */
  lemma {:induction false} FilterMembership(xs: seq<ServerDescription>, keep: ServerDescription -> bool,
                                            s: ServerDescription)
    ensures s in Filter(xs, keep) <==> s in xs && keep(s)
    decreases |xs|
  {
    if xs != [] {
      FilterMembership(xs[1..], keep, s);
      assert s in xs <==> s == xs[0] || s in xs[1..];
    }
  }

  /** Each element that passes the test survives as often as it occurs; the
      others do not survive at all. */
  lemma {:induction false} FilterCount(xs: seq<ServerDescription>, keep: ServerDescription -> bool,
                                       s: ServerDescription)
    ensures multiset(Filter(xs, keep))[s] == if keep(s) then multiset(xs)[s] else 0
    decreases |xs|
  {
    if xs != [] {
      FilterCount(xs[1..], keep, s);
      assert xs == [xs[0]] + xs[1..];
      assert multiset(xs) == multiset([xs[0]]) + multiset(xs[1..]);
    }
  }

  /** Filtering keeps the order of what it keeps. */
  lemma {:induction false} FilterIsSubsequence(xs: seq<ServerDescription>, keep: ServerDescription -> bool)
    ensures IsSubsequence(Filter(xs, keep), xs)
    decreases |xs|
  {
    if xs != [] {
      FilterIsSubsequence(xs[1..], keep);
      if keep(xs[0]) {
        assert Filter(xs, keep) == [xs[0]] + Filter(xs[1..], keep);
        assert Filter(xs, keep)[1..] == Filter(xs[1..], keep);
      } else {
        assert Filter(xs, keep) == Filter(xs[1..], keep);
        SubsequenceOfTail(Filter(xs[1..], keep), xs);
      }
    }
  }

  /** A subsequence of the tail of `xs` is a subsequence of `xs`. */
  lemma {:induction false} SubsequenceOfTail(sub: seq<ServerDescription>, xs: seq<ServerDescription>)
    requires xs != [] && IsSubsequence(sub, xs[1..])
    ensures IsSubsequence(sub, xs)
    decreases |xs|, 0
  {
    if sub != [] && sub[0] == xs[0] {
      DropHead(sub, xs[1..]);
    }
  }

  /** Dropping the head of a subsequence keeps it a subsequence. */
  lemma {:induction false} DropHead(sub: seq<ServerDescription>, xs: seq<ServerDescription>)
    requires sub != [] && IsSubsequence(sub, xs)
    ensures IsSubsequence(sub[1..], xs)
    decreases |xs|, 1
  {
    assert xs != [];
    if sub[0] == xs[0] {
      SubsequenceOfTail(sub[1..], xs);
    } else {
      DropHead(sub, xs[1..]);
      SubsequenceOfTail(sub[1..], xs);
    }
  }

  /** Filtering twice by the same test is filtering once. */
  lemma {:induction false} FilterIsIdempotent(xs: seq<ServerDescription>, keep: ServerDescription -> bool)
    ensures Filter(Filter(xs, keep), keep) == Filter(xs, keep)
    decreases |xs|
  {
    if xs != [] {
      FilterIsIdempotent(xs[1..], keep);
      if keep(xs[0]) {
        var f := Filter(xs, keep);
        assert f == [xs[0]] + Filter(xs[1..], keep);
        assert f[0] == xs[0] && f[1..] == Filter(xs[1..], keep);
        assert Filter(f, keep) == [f[0]] + Filter(f[1..], keep);
      } else {
        assert Filter(xs, keep) == Filter(xs[1..], keep);
      }
    }
  }

  /** A list all of whose elements pass the test comes back unchanged. */
  lemma {:induction false} FilterKeepsAll(xs: seq<ServerDescription>, keep: ServerDescription -> bool)
    requires forall i :: 0 <= i < |xs| ==> keep(xs[i])
    ensures Filter(xs, keep) == xs
    decreases |xs|
  {
    if xs != [] {
      FilterKeepsAll(xs[1..], keep);
    }
  }

  /** The selector that accepts every server. */
  function AnyServerSelector(serverDescriptions: seq<ServerDescription>): (r: seq<ServerDescription>)
    ensures r == serverDescriptions
    ensures r == Filter(serverDescriptions, AcceptsAll)
  {
    FilterKeepsAll(serverDescriptions, AcceptsAll);
    serverDescriptions
  }

  /** The test the any-server selector amounts to. */
  predicate AcceptsAll(s: ServerDescription)
  {
    true
  }

  /** The servers that accept writes. */
  function WritableServerSelector(serverDescriptions: seq<ServerDescription>): (r: seq<ServerDescription>)
    ensures forall s :: s in r <==> s in serverDescriptions && s.isWritable
    ensures forall s :: multiset(r)[s] == if s.isWritable then multiset(serverDescriptions)[s] else 0
    ensures IsSubsequence(r, serverDescriptions)
    ensures |r| <= |serverDescriptions|
  {
    FilterIsSubsequence(serverDescriptions, IsWritable);
    forall s ensures s in Filter(serverDescriptions, IsWritable) <==> s in serverDescriptions && s.isWritable {
      FilterMembership(serverDescriptions, IsWritable, s);
    }
    forall s ensures multiset(Filter(serverDescriptions, IsWritable))[s] ==
                     if s.isWritable then multiset(serverDescriptions)[s] else 0 {
      FilterCount(serverDescriptions, IsWritable, s);
    }
    Filter(serverDescriptions, IsWritable)
  }

  /** The replica-set secondaries. */
  function SecondaryServerSelector(serverDescriptions: seq<ServerDescription>): (r: seq<ServerDescription>)
    ensures forall s :: s in r <==> s in serverDescriptions && s.serverType == RSSecondary
    ensures forall s :: multiset(r)[s] == if s.serverType == RSSecondary then multiset(serverDescriptions)[s] else 0
    ensures IsSubsequence(r, serverDescriptions)
    ensures |r| <= |serverDescriptions|
  {
    FilterIsSubsequence(serverDescriptions, IsSecondary);
    forall s ensures s in Filter(serverDescriptions, IsSecondary) <==>
                     s in serverDescriptions && s.serverType == RSSecondary {
      FilterMembership(serverDescriptions, IsSecondary, s);
    }
    forall s ensures multiset(Filter(serverDescriptions, IsSecondary))[s] ==
                     if s.serverType == RSSecondary then multiset(serverDescriptions)[s] else 0 {
      FilterCount(serverDescriptions, IsSecondary, s);
    }
    Filter(serverDescriptions, IsSecondary)
  }

  /** The test the writable selector applies. */
  predicate IsWritable(s: ServerDescription)
  {
    s.isWritable
  }

  /** The test the secondary selector applies. */
  predicate IsSecondary(s: ServerDescription)
  {
    s.serverType == RSSecondary
  }

  /** Selecting writable servers twice is selecting them once. */
  lemma WritableSelectorIsIdempotent(serverDescriptions: seq<ServerDescription>)
    ensures WritableServerSelector(WritableServerSelector(serverDescriptions)) == WritableServerSelector(serverDescriptions)
  {
    FilterIsIdempotent(serverDescriptions, IsWritable);
  }

  /** Selecting secondaries twice is selecting them once. */
  lemma SecondarySelectorIsIdempotent(serverDescriptions: seq<ServerDescription>)
    ensures SecondaryServerSelector(SecondaryServerSelector(serverDescriptions)) == SecondaryServerSelector(serverDescriptions)
  {
    FilterIsIdempotent(serverDescriptions, IsSecondary);
  }
}
