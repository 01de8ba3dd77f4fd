/**
 * The loop the Europe PMC, openFDA, preprint and journal RSS connectors share: walk the
 * fetched entries in order, skip those that do not match, append the record built from
 * each one that does, and stop once `limit` records are held. The check against the limit
 * comes after the append, so a non-positive limit still lets one record through; the
 * connectors that guard against such a limit do so before the loop.
 */
module Collect {
  import opened Wrappers
  import opened Strings
  import opened Records

  /** `(x or "").strip() or None` */
  function Cleaned(x: Option<string>): (r: Option<string>)
    ensures r.Some? ==> r.value != "" && r.value == Strip(OrEmpty(x))
    ensures r.None? <==> Strip(OrEmpty(x)) == ""
  {
    var t := Strip(OrEmpty(x));
    if t == "" then None else Some(t)
  }

  /** The records built from `xs`, in order. */
  function Built<T>(xs: seq<T>, build: T -> Item): (r: seq<Item>)
    ensures |r| == |xs|
  {
    seq(|xs|, k requires 0 <= k < |xs| => build(xs[k]))
  }

  /** The number of appended records at which the loop stops: `limit`, but at least one. */
  function Cap(limit: int): nat {
    if limit < 1 then 1 else limit
  }

  /** The records the loop returns: those of the matching entries, in order, at most `Cap(limit)`. */
  function Selected<T>(xs: seq<T>, keep: T -> bool, build: T -> Item, limit: int): seq<Item> {
    Take(Built(Filter(xs, keep), build), Cap(limit))
  }

  /**
   * Append to `items` the records of the matching entries of `xs` until `Cap(limit)` are
   * held; `full` says the loop stopped there (the source's `break` or early `return`).
   */
  method Extend<T>(items: seq<Item>, xs: seq<T>, keep: T -> bool, build: T -> Item, limit: int)
    returns (out: seq<Item>, full: bool)
    requires |items| < Cap(limit)
    ensures out == items + Take(Built(Filter(xs, keep), build), Cap(limit) - |items|)
    ensures full <==> |out| >= Cap(limit)
  {
    out := items;
    full := false;
    var i := 0;
    while i < |xs|
      invariant i <= |xs|
      invariant out == items + Built(Filter(xs[..i], keep), build)
      invariant |out| < Cap(limit)
    {
      ExtendStep(xs, i, keep, build);
      if keep(xs[i]) {
        out := out + [build(xs[i])];
        if |out| >= Cap(limit) {
          full := true;
          TakeOfPrefix(xs, i + 1, keep, build, Cap(limit) - |items|);
          return;
        }
      }
      i := i + 1;
    }
    assert xs[..i] == xs;
  }

  /**
   * The loop over groups of entries (the journal connector's feeds): `Extend` over each
   * group in turn, stopping at the group in which `Cap(limit)` records are reached; `full`
   * says it stopped there.
   */
  method ExtendGroups<T>(groups: seq<seq<T>>, keep: T -> bool, build: T -> Item, limit: int)
    returns (items: seq<Item>, full: bool)
    ensures items == Take(Built(Filter(Flatten(groups), keep), build), Cap(limit))
    ensures full <==> |items| >= Cap(limit)
  {
    items := [];
    full := false;
    assert groups[0..] == groups;
    for i := 0 to |groups|
      invariant |items| < Cap(limit)
      invariant Take(Built(Filter(Flatten(groups), keep), build), Cap(limit))
        == items + Take(Built(Filter(Flatten(groups[i..]), keep), build), Cap(limit) - |items|)
    {
      GroupStep(groups, i, keep, build, limit, items);
      items, full := Extend(items, groups[i], keep, build, limit);
      if full {
        return;
      }
    }
    assert groups[|groups|..] == [];
  }

  /** The loop over one list of entries, from nothing gathered. */
  method CollectMatching<T>(xs: seq<T>, keep: T -> bool, build: T -> Item, limit: int) returns (items: seq<Item>)
    ensures items == Selected(xs, keep, build, limit)
  {
    var full;
    items, full := Extend([], xs, keep, build, limit);
  }

  // ---------------------------------------------------------------- properties

  lemma {:induction false} FilterConcat<T>(a: seq<T>, b: seq<T>, keep: T -> bool)
    ensures Filter(a + b, keep) == Filter(a, keep) + Filter(b, keep)
    decreases |a|
  {
    if a == [] {
      assert a + b == b;
    } else {
      var head := if keep(a[0]) then [a[0]] else [];
      assert (a + b)[0] == a[0] && (a + b)[1..] == a[1..] + b;
      assert Filter(a + b, keep) == head + Filter(a[1..] + b, keep);
      FilterConcat(a[1..], b, keep);
      assert Filter(a, keep) == head + Filter(a[1..], keep);
    }
  }

  lemma BuiltConcat<T>(a: seq<T>, b: seq<T>, build: T -> Item)
    ensures Built(a + b, build) == Built(a, build) + Built(b, build)
  {
    assert forall k | 0 <= k < |a + b| :: (a + b)[k] == if k < |a| then a[k] else b[k - |a|];
  }

  /** The records of a prefix of the entries are a prefix of their records. */
  lemma BuiltPrefix<T>(a: seq<T>, b: seq<T>, build: T -> Item)
    requires a <= b
    ensures Built(a, build) <= Built(b, build)
  {
    assert b == a + b[|a|..];
    BuiltConcat(a, b[|a|..], build);
  }

  lemma ExtendStep<T>(xs: seq<T>, i: nat, keep: T -> bool, build: T -> Item)
    requires i < |xs|
    ensures Built(Filter(xs[..i + 1], keep), build)
         == Built(Filter(xs[..i], keep), build) + (if keep(xs[i]) then [build(xs[i])] else [])
  {
    assert xs[..i + 1] == xs[..i] + [xs[i]];
    FilterConcat(xs[..i], [xs[i]], keep);
    BuiltConcat(Filter(xs[..i], keep), Filter([xs[i]], keep), build);
    assert Filter([xs[i]], keep) == if keep(xs[i]) then [xs[i]] else [];
  }

  /** Once `n` records come from the first `i` entries, they are the first `n` of all of them. */
  lemma TakeOfPrefix<T>(xs: seq<T>, i: nat, keep: T -> bool, build: T -> Item, n: nat)
    requires i <= |xs| && |Filter(xs[..i], keep)| == n
    ensures Built(Filter(xs[..i], keep), build) == Take(Built(Filter(xs, keep), build), n)
  {
    assert xs == xs[..i] + xs[i..];
    FilterConcat(xs[..i], xs[i..], keep);
    BuiltConcat(Filter(xs[..i], keep), Filter(xs[i..], keep), build);
  }

  /** The entries of several groups, group after group. */
  function Flatten<T>(groups: seq<seq<T>>): seq<T>
    decreases |groups|
  {
    if groups == [] then [] else groups[0] + Flatten(groups[1..])
  }

  /** An entry of a group is an entry of the groups. */
  lemma {:induction false} FlattenHas<T>(groups: seq<seq<T>>, i: nat, x: T)
    requires i < |groups| && x in groups[i]
    ensures x in Flatten(groups)
    decreases i
  {
    if i > 0 {
      assert groups[1..][i - 1] == groups[i];
      FlattenHas(groups[1..], i - 1, x);
    }
  }

  /** An entry of the groups comes from one of them. */
  lemma {:induction false} FlattenFrom<T>(groups: seq<seq<T>>, x: T) returns (i: nat)
    requires x in Flatten(groups)
    ensures i < |groups| && x in groups[i]
    decreases |groups|
  {
    if x in groups[0] {
      i := 0;
    } else {
      var j := FlattenFrom(groups[1..], x);
      i := j + 1;
    }
  }

  /**
   * One group of a loop over groups of entries: the records still to come from the groups
   * from the `i`-th on are those of the `i`-th group's matching entries up to the limit,
   * then, if the limit is not reached, those of the groups after it.
   */
  lemma GroupStep<T>(groups: seq<seq<T>>, i: nat, keep: T -> bool, build: T -> Item, limit: int, items: seq<Item>)
    requires i < |groups| && |items| < Cap(limit)
    ensures groups[i] == [] ==> Flatten(groups[i..]) == Flatten(groups[i + 1..])
    ensures var m := Cap(limit) - |items|;
      var out := items + Take(Built(Filter(groups[i], keep), build), m);
      items + Take(Built(Filter(Flatten(groups[i..]), keep), build), m)
        == if |out| >= Cap(limit) then out
           else out + Take(Built(Filter(Flatten(groups[i + 1..]), keep), build), Cap(limit) - |out|)
  {
    var m := Cap(limit) - |items|;
    var here := Built(Filter(groups[i], keep), build);
    var rest := Built(Filter(Flatten(groups[i + 1..]), keep), build);
    assert groups[i..][0] == groups[i] && groups[i..][1..] == groups[i + 1..];
    assert Flatten(groups[i..]) == groups[i] + Flatten(groups[i + 1..]);
    FilterConcat(groups[i], Flatten(groups[i + 1..]), keep);
    BuiltConcat(Filter(groups[i], keep), Filter(Flatten(groups[i + 1..]), keep), build);
    assert Built(Filter(Flatten(groups[i..]), keep), build) == here + rest;
    if |here| >= m {
      TakeWithin(here, rest, m);
    } else {
      TakeAppend(here, rest, m);
    }
  }

  /** Taking past a whole prefix keeps the prefix and takes the rest from what follows. */
  lemma TakeAppend<T>(a: seq<T>, b: seq<T>, n: nat)
    requires |a| <= n
    ensures Take(a + b, n) == a + Take(b, n - |a|)
  {
    if |a + b| > n {
      assert (a + b)[..n] == a + b[..n - |a|];
    }
  }

  /** Taking no more than a prefix holds only reads that prefix. */
  lemma TakeWithin<T>(a: seq<T>, b: seq<T>, n: nat)
    requires n <= |a|
    ensures Take(a + b, n) == Take(a, n)
  {
    assert (a + b)[..n] == a[..n];
  }

  /**
   * The records returned are at most `limit` (one when `limit` is not positive), each built
   * from an entry that matched, in the entries' order; when the matching entries are no more
   * than that, every one of them gives a record.
   */
  lemma SelectedSpec<T>(xs: seq<T>, keep: T -> bool, build: T -> Item, limit: int)
    ensures var r := Selected(xs, keep, build, limit);
      && |r| <= Cap(limit)
      && r <= Built(Filter(xs, keep), build)
      && (forall k | 0 <= k < |r| :: exists x | x in xs && keep(x) :: r[k] == build(x))
      && (|Filter(xs, keep)| <= Cap(limit) ==> r == Built(Filter(xs, keep), build))
  {
    var f := Filter(xs, keep);
    FilterSpec(xs, keep);
    var r := Selected(xs, keep, build, limit);
    forall k | 0 <= k < |r| ensures exists x | x in xs && keep(x) :: r[k] == build(x) {
      assert r[k] == build(f[k]) && f[k] in f;
    }
  }
}
