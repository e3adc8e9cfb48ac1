/** Order-preserving list helpers: Python list comprehensions with an `if`
    filter, and `[x] * n`. */
module Lists {
  import opened Wrappers

  /** `a` is obtained from `b` by deleting elements (order is kept). */
  predicate IsSubseq<T(==)>(a: seq<T>, b: seq<T>)
    decreases |b|
  {
    if a == [] then true
    else if b == [] then false
    else if a[0] == b[0] then IsSubseq(a[1..], b[1..])
    else IsSubseq(a, b[1..])
  }

  /** No element occurs twice. */
  predicate Distinct<T(==)>(s: seq<T>) {
    forall i, j :: 0 <= i < j < |s| ==> s[i] != s[j]
  }

  /** `[x for x in s if p(x)]` */
  function Filter<T(==)>(s: seq<T>, p: T -> bool): (r: seq<T>)
    ensures |r| <= |s|
    ensures forall i :: 0 <= i < |r| ==> r[i] in s && p(r[i])
    ensures forall i :: 0 <= i < |s| && p(s[i]) ==> s[i] in r
    ensures IsSubseq(r, s)
  {
    if s == [] then []
    else if p(s[0]) then [s[0]] + Filter(s[1..], p)
    else Filter(s[1..], p)
  }

  /** `[f(x) for x in s if p(x)]` */
  function MapFilter<T(==), U>(s: seq<T>, p: T -> bool, f: T -> U): (r: seq<U>)
    ensures |r| == |Filter(s, p)|
  {
    if s == [] then []
    else (if p(s[0]) then [f(s[0])] else []) + MapFilter(s[1..], p, f)
  }

  /** Every element the filter admits contributes its image. */
  lemma {:induction false} MapFilterKeeps<T, U>(s: seq<T>, p: T -> bool, f: T -> U, k: nat)
    requires k < |s| && p(s[k])
    ensures f(s[k]) in MapFilter(s, p, f)
    decreases k
  {
    if k > 0 {
      assert s[k] == s[1..][k - 1];
      MapFilterKeeps(s[1..], p, f, k - 1);
    }
  }

  /** Every image in the result comes from an element the filter admits. */
  lemma {:induction false} MapFilterFrom<T, U>(s: seq<T>, p: T -> bool, f: T -> U)
    ensures forall y :: y in MapFilter(s, p, f) ==> exists i :: 0 <= i < |s| && p(s[i]) && y == f(s[i])
  {
    if s != [] {
      MapFilterFrom(s[1..], p, f);
      forall y | y in MapFilter(s, p, f) ensures exists i :: 0 <= i < |s| && p(s[i]) && y == f(s[i]) {
        if !(p(s[0]) && y == f(s[0])) {
          assert MapFilter(s, p, f) == (if p(s[0]) then [f(s[0])] else []) + MapFilter(s[1..], p, f);
          assert y in MapFilter(s[1..], p, f);
          var i :| 0 <= i < |s[1..]| && p(s[1..][i]) && y == f(s[1..][i]);
          assert s[i + 1] == s[1..][i];
        }
      }
    }
  }

  /** Appending one element appends its image when the filter admits it. */
  lemma {:induction false} MapFilterSnoc<T, U>(s: seq<T>, x: T, p: T -> bool, f: T -> U)
    ensures MapFilter(s + [x], p, f) == MapFilter(s, p, f) + (if p(x) then [f(x)] else [])
  {
    if s != [] {
      assert (s + [x])[1..] == s[1..] + [x];
      MapFilterSnoc(s[1..], x, p, f);
    } else {
      assert (s + [x])[1..] == [];
    }
  }

  /** `[x for x in s if x is not None]` */
  function Somes<T>(s: seq<Option<T>>): (r: seq<T>)
    ensures |r| <= |s|
  {
    if s == [] then []
    else (if s[0].Some? then [s[0].value] else []) + Somes(s[1..])
  }

  /** Appending one option appends its value when there is one. */
  lemma {:induction false} SomesSnoc<T>(s: seq<Option<T>>, x: Option<T>)
    ensures Somes(s + [x]) == Somes(s) + (if x.Some? then [x.value] else [])
  {
    if s != [] {
      assert (s + [x])[1..] == s[1..] + [x];
      SomesSnoc(s[1..], x);
    } else {
      assert (s + [x])[1..] == [];
    }
  }

  /** A loop over per-item outcomes that keeps the present values and
      stops at the first error: an `Err` item ends it with that error,
      `Ok(None)` is skipped, `Ok(Some(v))` appends `v`. */
  function Gather<R, E>(rs: seq<Result<Option<R>, E>>): (r: Result<seq<R>, E>)
    ensures r.Ok? ==> |r.value| <= |rs|
  {
    if rs == [] then Ok([])
    else
      match Gather(rs[..|rs| - 1])
      case Err(e) => Err(e)
      case Ok(acc) =>
        match rs[|rs| - 1]
        case Err(e) => Err(e)
        case Ok(None) => Ok(acc)
        case Ok(Some(v)) => Ok(acc + [v])
  }

  /** The values of the `Ok` items, `None` for the others. */
  function OkValues<R, E>(rs: seq<Result<Option<R>, E>>): (vs: seq<Option<R>>)
    ensures |vs| == |rs|
    ensures forall i :: 0 <= i < |rs| ==> vs[i] == if rs[i].Ok? then rs[i].value else None
  {
    seq(|rs|, i requires 0 <= i < |rs| => if rs[i].Ok? then rs[i].value else None)
  }

  /** `Gather` succeeds exactly when no item is an error, and then
      returns the present values in order. */
  lemma {:induction false} GatherOk<R, E>(rs: seq<Result<Option<R>, E>>)
    ensures Gather(rs).Ok? <==> forall i :: 0 <= i < |rs| ==> rs[i].Ok?
    ensures Gather(rs).Ok? ==> Gather(rs).value == Somes(OkValues(rs))
  {
    if rs != [] {
      var n := |rs| - 1;
      var pre := rs[..n];
      GatherOk(pre);
      assert forall i :: 0 <= i < n ==> pre[i] == rs[i];
      if Gather(rs).Ok? {
        assert OkValues(rs) == OkValues(pre) + [rs[n].value];
        SomesSnoc(OkValues(pre), rs[n].value);
      }
    }
  }

  /** When `Gather` fails, its error is that of the first error item. */
  lemma {:induction false} GatherFirstErr<R, E>(rs: seq<Result<Option<R>, E>>)
    ensures Gather(rs).Err? ==>
              exists i :: 0 <= i < |rs| && rs[i] == Err(Gather(rs).error) && forall j :: 0 <= j < i ==> rs[j].Ok?
  {
    if rs != [] {
      var n := |rs| - 1;
      var pre := rs[..n];
      assert forall i :: 0 <= i < n ==> pre[i] == rs[i];
      if Gather(pre).Err? {
        GatherFirstErr(pre);
        var i :| 0 <= i < n && pre[i] == Err(Gather(pre).error) && forall j :: 0 <= j < i ==> pre[j].Ok?;
        assert rs[i] == Err(Gather(rs).error);
      } else {
        GatherOk(pre);
      }
    }
  }

  /** Every value `Gather` returns is present in an `Ok` item. */
  lemma {:induction false} GatherFrom<R, E>(rs: seq<Result<Option<R>, E>>)
    ensures Gather(rs).Ok? ==> forall v :: v in Gather(rs).value ==> Ok(Some(v)) in rs
  {
    if rs != [] {
      var n := |rs| - 1;
      var pre := rs[..n];
      GatherFrom(pre);
      assert forall x :: x in pre ==> x in rs;
    }
  }

  /** One more item: an error ends `Gather` with it, a present value is
      appended, an absent one is skipped. */
  lemma GatherStep<R, E>(rs: seq<Result<Option<R>, E>>, i: nat)
    requires i < |rs| && Gather(rs[..i]).Ok?
    ensures rs[i].Err? ==> Gather(rs[..i + 1]) == Err(rs[i].error)
    ensures rs[i] == Ok(None) ==> Gather(rs[..i + 1]) == Gather(rs[..i])
    ensures rs[i].Ok? && rs[i].value.Some? ==> Gather(rs[..i + 1]) == Ok(Gather(rs[..i]).value + [rs[i].value.value])
  {
    assert rs[..i + 1][..i] == rs[..i];
  }

  /** Once a prefix has failed, the items after it do not matter. */
  lemma {:induction false} GatherPrefixErr<R, E>(rs: seq<Result<Option<R>, E>>, k: nat)
    requires k <= |rs| && Gather(rs[..k]).Err?
    ensures Gather(rs) == Gather(rs[..k])
    decreases |rs| - k
  {
    if k < |rs| {
      assert rs[..k + 1][..k] == rs[..k];
      GatherPrefixErr(rs, k + 1);
    } else {
      assert rs[..k] == rs;
    }
  }
  /** The loop `Gather` describes: item i is computed by `f(i)`, in
      order, and the first error returns at once, so no later item is
      computed.  `rs` names the items the `n` calls give. */
  method GatherLoop<R, E>(n: nat, f: nat --> Result<Option<R>, E>, ghost rs: seq<Result<Option<R>, E>>)
    returns (r: Result<seq<R>, E>)
    requires |rs| == n && forall i :: 0 <= i < n ==> f.requires(i) && f(i) == rs[i]
    ensures r == Gather(rs)
  {
    var acc: seq<R> := [];
    var i := 0;
    while i < n
      invariant 0 <= i <= n
      invariant Gather(rs[..i]) == Ok(acc)
    {
      var d := f(i);
      GatherStep(rs, i);
      if d.Err? {
        GatherPrefixErr(rs, i + 1);
        return Err(d.error);
      }
      if d.value.Some? {
        acc := acc + [d.value.value];
      }
      i := i + 1;
    }
    assert rs[..n] == rs;
    r := Ok(acc);
  }


  lemma {:induction false} SubseqOfDistinct<T>(a: seq<T>, b: seq<T>)
    requires IsSubseq(a, b) && Distinct(b)
    ensures Distinct(a)
    decreases |b|
  {
    if a != [] && b != [] {
      if a[0] == b[0] {
        SubseqOfDistinct(a[1..], b[1..]);
        SubseqMembers(a[1..], b[1..]);
        forall j | 0 < j < |a| ensures a[0] != a[j] {
          assert a[j] == a[1..][j - 1];
          assert a[j] in b[1..];
        }
      } else {
        SubseqOfDistinct(a, b[1..]);
      }
    }
  }

  lemma {:induction false} SubseqMembers<T>(a: seq<T>, b: seq<T>)
    requires IsSubseq(a, b)
    ensures forall i :: 0 <= i < |a| ==> a[i] in b
    decreases |b|
  {
    if a != [] && b != [] {
      if a[0] == b[0] {
        SubseqMembers(a[1..], b[1..]);
        assert a == [a[0]] + a[1..];
      } else {
        SubseqMembers(a, b[1..]);
      }
    }
  }

  /** Filtering a list without repetitions gives a list without repetitions. */
  lemma FilterDistinct<T>(s: seq<T>, p: T -> bool)
    requires Distinct(s)
    ensures Distinct(Filter(s, p))
  {
    SubseqOfDistinct(Filter(s, p), s);
  }

  /** `[x] * n` */
  function Repeat<T>(x: T, n: nat): (r: seq<T>)
    ensures |r| == n
    ensures forall i :: 0 <= i < n ==> r[i] == x
  {
    seq(n, _ => x)
  }

  /** The index of the first element satisfying `p`: what a `for` loop
      with an early `return` finds. */
  function First<T>(s: seq<T>, p: T -> bool): (r: Option<nat>)
    ensures r.Some? ==> r.value < |s| && p(s[r.value])
    ensures r.Some? ==> forall j :: 0 <= j < r.value ==> !p(s[j])
    ensures r.None? <==> forall i :: 0 <= i < |s| ==> !p(s[i])
  {
    if s == [] then None
    else if p(s[0]) then Some(0)
    else match First(s[1..], p)
      case None => None
      case Some(i) => Some(i + 1)
  }

  /** An index where `p` first holds is the one `First` finds. */
  lemma FirstIs<T>(s: seq<T>, p: T -> bool, k: nat)
    requires k < |s| && p(s[k]) && forall j :: 0 <= j < k ==> !p(s[j])
    ensures First(s, p) == Some(k)
  {
  }
}
