/**
 * The order-preserving filter-map that both container loops perform: each
 * element yields at most one output, skipped elements yield none, and the
 * outputs keep the order of the elements they came from.
 */
module Lists {
  import opened Wrappers

  function Emitted<A, B>(f: A -> Option<B>, x: A): seq<B>
  {
    match f(x)
    case Some(b) => [b]
    case None => []
  }

  /** The outputs of `f` over `s`, in order, dropping the elements it maps to `None`. */
  function FilterMap<A, B>(f: A -> Option<B>, s: seq<A>): (r: seq<B>)
    ensures |r| <= |s|
    decreases |s|
  {
    if s == [] then [] else FilterMap(f, s[..|s| - 1]) + Emitted(f, s[|s| - 1])
  }

  /** One more element processed: its output, if any, goes at the end. */
  lemma FilterMapStep<A, B>(f: A -> Option<B>, s: seq<A>, i: nat)
    requires i < |s|
    ensures FilterMap(f, s[..i + 1]) == FilterMap(f, s[..i]) + Emitted(f, s[i])
  {
    assert s[..i + 1][..i] == s[..i];
  }

  /** Processing `a + b` is processing `a`, then processing `b`: what happens to
      one element never affects the elements after it. */
  lemma {:induction false} FilterMapAppend<A, B>(f: A -> Option<B>, a: seq<A>, b: seq<A>)
    ensures FilterMap(f, a + b) == FilterMap(f, a) + FilterMap(f, b)
    decreases |b|
  {
    if b == [] {
      assert a + b == a;
    } else {
      var b' := b[..|b| - 1];
      assert (a + b)[..|a + b| - 1] == a + b';
      assert (a + b)[|a + b| - 1] == b[|b| - 1];
      FilterMapAppend(f, a, b');
    }
  }

  /** An element that `f` drops contributes nothing. */
  lemma FilterMapSkip<A, B>(f: A -> Option<B>, a: seq<A>, x: A, b: seq<A>)
    requires f(x).None?
    ensures FilterMap(f, a + [x] + b) == FilterMap(f, a) + FilterMap(f, b)
  {
    FilterMapAppend(f, a + [x], b);
    FilterMapAppend(f, a, [x]);
    assert [x][..0] == [];
    assert FilterMap(f, [x]) == [];
    assert FilterMap(f, a) + [] == FilterMap(f, a);
  }

  /** A kept element contributes exactly its output, in its place. */
  lemma FilterMapKeep<A, B>(f: A -> Option<B>, a: seq<A>, x: A, b: seq<A>)
    requires f(x).Some?
    ensures FilterMap(f, a + [x] + b) == FilterMap(f, a) + [f(x).value] + FilterMap(f, b)
  {
    FilterMapAppend(f, a + [x], b);
    FilterMapAppend(f, a, [x]);
    assert [x][..0] == [];
  }

  /** The indices of the elements `f` keeps, in increasing order. */
  function Kept<A, B>(f: A -> Option<B>, s: seq<A>): seq<nat>
    decreases |s|
  {
    if s == [] then []
    else Kept(f, s[..|s| - 1]) + (if f(s[|s| - 1]).Some? then [|s| - 1] else [])
  }

  lemma {:induction false} KeptLength<A, B>(f: A -> Option<B>, s: seq<A>)
    ensures |Kept(f, s)| == |FilterMap(f, s)|
    decreases |s|
  {
    if s != [] {
      KeptLength(f, s[..|s| - 1]);
    }
  }

  /** The k-th output comes from the element at the k-th kept index. */
  lemma {:induction false} KeptOrigin<A, B>(f: A -> Option<B>, s: seq<A>)
    ensures |Kept(f, s)| == |FilterMap(f, s)|
    ensures forall k :: 0 <= k < |Kept(f, s)| ==>
              Kept(f, s)[k] < |s| && f(s[Kept(f, s)[k]]) == Some(FilterMap(f, s)[k])
    decreases |s|
  {
    KeptLength(f, s);
    if s != [] {
      var s' := s[..|s| - 1];
      KeptOrigin(f, s');
      var ks, ks' := Kept(f, s), Kept(f, s');
      var ms, ms' := FilterMap(f, s), FilterMap(f, s');
      forall k | 0 <= k < |ks| ensures ks[k] < |s| && f(s[ks[k]]) == Some(ms[k]) {
        if k < |ks'| {
          assert ks[k] == ks'[k] && ms[k] == ms'[k];
          assert s[ks'[k]] == s'[ks'[k]];
        }
      }
    }
  }

  /** The kept indices increase strictly and stay below `|s|`. */
  lemma {:induction false} KeptIncreasing<A, B>(f: A -> Option<B>, s: seq<A>)
    ensures forall k :: 0 <= k < |Kept(f, s)| ==> Kept(f, s)[k] < |s|
    ensures forall k, l :: 0 <= k < l < |Kept(f, s)| ==> Kept(f, s)[k] < Kept(f, s)[l]
    decreases |s|
  {
    if s != [] {
      KeptIncreasing(f, s[..|s| - 1]);
    }
  }

  /** Every element `f` keeps is among the kept indices. */
  lemma {:induction false} KeptComplete<A, B>(f: A -> Option<B>, s: seq<A>)
    ensures forall i :: 0 <= i < |s| && f(s[i]).Some? ==> i in Kept(f, s)
    decreases |s|
  {
    if s != [] {
      var s' := s[..|s| - 1];
      KeptComplete(f, s');
      forall i | 0 <= i < |s| - 1 && f(s[i]).Some? ensures i in Kept(f, s) {
        assert s[i] == s'[i];
      }
    }
  }

  /** The k-th output comes from the element at the k-th kept index; the kept
      indices increase strictly; and every element `f` keeps is among them. */
  lemma FilterMapOrigin<A, B>(f: A -> Option<B>, s: seq<A>)
    ensures |Kept(f, s)| == |FilterMap(f, s)|
    ensures forall k :: 0 <= k < |Kept(f, s)| ==>
              Kept(f, s)[k] < |s| && f(s[Kept(f, s)[k]]) == Some(FilterMap(f, s)[k])
    ensures forall k, l :: 0 <= k < l < |Kept(f, s)| ==> Kept(f, s)[k] < Kept(f, s)[l]
    ensures forall i :: 0 <= i < |s| && f(s[i]).Some? ==> i in Kept(f, s)
  {
    KeptOrigin(f, s);
    KeptIncreasing(f, s);
    KeptComplete(f, s);
  }

  /** Two filter-maps that drop the same elements keep the same indices. */
  lemma {:induction false} KeptSameDomain<A, B, C>(f: A -> Option<B>, g: A -> Option<C>, s: seq<A>)
    requires forall i :: 0 <= i < |s| ==> (f(s[i]).Some? <==> g(s[i]).Some?)
    ensures Kept(f, s) == Kept(g, s)
    decreases |s|
  {
    if s != [] {
      KeptSameDomain(f, g, s[..|s| - 1]);
    }
  }

  /** Three kept elements and a dropped one yield the three outputs in order. */
  lemma ThreeKeptOneDropped<A, B>(f: A -> Option<B>, x1: A, x2: A, x3: A, bad: A)
    requires f(x1).Some? && f(x2).Some? && f(x3).Some? && f(bad).None?
    ensures FilterMap(f, [x1, x2, x3, bad]) == [f(x1).value, f(x2).value, f(x3).value]
  {
    var m1, m2, m3 := f(x1).value, f(x2).value, f(x3).value;
    var s1, s2, s3, s4 := [x1], [x1, x2], [x1, x2, x3], [x1, x2, x3, bad];
    assert s1[..0] == [];
    assert FilterMap(f, s1) == [m1];
    assert s2[..1] == s1;
    assert FilterMap(f, s2) == [m1] + [m2];
    assert s3[..2] == s2;
    assert FilterMap(f, s3) == [m1, m2] + [m3];
    assert s4[..3] == s3;
    assert FilterMap(f, s4) == [m1, m2, m3] + [];
  }

  /** What `f` writes for each element of `s`, one after the other. */
  function Flatten<A, C>(f: A -> seq<C>, s: seq<A>): (r: seq<C>)
    decreases |s|
  {
    if s == [] then [] else Flatten(f, s[..|s| - 1]) + f(s[|s| - 1])
  }

  /** Writing one more element appends what it writes. */
  lemma FlattenStep<A, C>(f: A -> seq<C>, s: seq<A>, i: nat)
    requires i < |s|
    ensures Flatten(f, s[..i + 1]) == Flatten(f, s[..i]) + f(s[i])
  {
    assert s[..i + 1][..i] == s[..i];
  }

  /** What is written for `s` starts with what is written for its first element. */
  lemma {:induction false} FlattenCons<A, C>(f: A -> seq<C>, s: seq<A>)
    requires s != []
    ensures Flatten(f, s) == f(s[0]) + Flatten(f, s[1..])
    decreases |s|
  {
    if |s| == 1 {
      assert s[..0] == [] && s[1..] == [];
    } else {
      var init, last, tail := s[..|s| - 1], s[|s| - 1], s[1..];
      FlattenCons(f, init);
      assert init[1..] == tail[..|tail| - 1] && tail[|tail| - 1] == last;
      calc {
        Flatten(f, s);
        Flatten(f, init) + f(last);
        (f(s[0]) + Flatten(f, init[1..])) + f(last);
        f(s[0]) + (Flatten(f, tail[..|tail| - 1]) + f(tail[|tail| - 1]));
        f(s[0]) + Flatten(f, tail);
      }
    }
  }

  /** Reads elements with `p` until the input is used up; `None` when `p`
      fails or reads nothing. */
  function ParseAll<A, C>(p: seq<C> -> Option<(A, seq<C>)>, s: seq<C>): Option<seq<A>>
    decreases |s|
  {
    if s == [] then Some([])
    else
      var (x, rest) :- p(s);
      if |rest| < |s| then
        var xs :- ParseAll(p, rest);
        Some([x] + xs)
      else None
  }

  /** A reader that reads back each element from what `f` writes for it (and
      leaves what follows) reads back a whole sequence of such elements. */
  lemma {:induction false} ParseAllFlatten<A, C>(p: seq<C> -> Option<(A, seq<C>)>, f: A -> seq<C>,
                                                 ok: A -> bool, s: seq<A>)
    requires forall x :: ok(x) ==> f(x) != []
    requires forall x, rest :: ok(x) ==> p(f(x) + rest) == Some((x, rest))
    requires forall i :: 0 <= i < |s| ==> ok(s[i])
    ensures ParseAll(p, Flatten(f, s)) == Some(s)
    decreases |s|
  {
    if s != [] {
      FlattenCons(f, s);
      ParseAllFlatten(p, f, ok, s[1..]);
      var rest := Flatten(f, s[1..]);
      assert p(f(s[0]) + rest) == Some((s[0], rest));
      assert [s[0]] + s[1..] == s;
    }
  }
}
