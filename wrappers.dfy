/** Optional values, standing for Python's `None`-or-value fields. */
module Wrappers {
  datatype Option<T> = None | Some(value: T) {
    /** `x or default` for a value whose only falsy form is None. */
    function UnwrapOr(default: T): T {
      if Some? then value else default
    }
  }

  /** Python's `str(x or "")` / `x or ""` on an optional string. */
  function OrEmpty(o: Option<string>): string {
    if o.Some? then o.value else ""
  }

  /** A string field of a record: None and "" are both falsy. */
  predicate Truthy(o: Option<string>) {
    o.Some? && o.value != ""
  }

  /** The truthy entries, in order. */
  function Present(xs: seq<Option<string>>): seq<string>
    decreases |xs|
  {
    if xs == [] then [] else (if Truthy(xs[0]) then [xs[0].value] else []) + Present(xs[1..])
  }

  /** The entries kept are exactly the non-empty ones, in their order. */
  lemma {:induction false} PresentSpec(xs: seq<Option<string>>)
    ensures forall x | x in Present(xs) :: x != ""
    ensures forall k | 0 <= k < |xs| && Truthy(xs[k]) :: xs[k].value in Present(xs)
    ensures |Present(xs)| <= |xs|
    decreases |xs|
  {
    if xs != [] {
      PresentSpec(xs[1..]);
      forall k | 1 <= k < |xs| && Truthy(xs[k]) ensures xs[k].value in Present(xs) {
        assert xs[1..][k - 1] == xs[k];
      }
    }
  }

  /** Order is kept: filtering a concatenation filters each part and joins
      them, so a truthy entry comes out before every later one. */
  lemma {:induction false} PresentInOrder(xs: seq<Option<string>>, ys: seq<Option<string>>)
    ensures Present(xs + ys) == Present(xs) + Present(ys)
    decreases |xs|
  {
    if xs == [] {
      assert xs + ys == ys;
    } else {
      var head := if Truthy(xs[0]) then [xs[0].value] else [];
      assert (xs + ys)[0] == xs[0] && (xs + ys)[1..] == xs[1..] + ys;
      assert Present(xs + ys) == head + Present(xs[1..] + ys);
      PresentInOrder(xs[1..], ys);
      assert Present(xs) == head + Present(xs[1..]);
    }
  }

  /** One entry is kept, as its value, exactly when it is truthy. */
  lemma PresentOne(x: Option<string>)
    ensures Present([x]) == if Truthy(x) then [x.value] else []
  {
    assert [x][1..] == [];
  }
}
