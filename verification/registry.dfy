/** The program's `List<Animal>`: an ordered, append-only registry, and the
    `OfType<IFly>()` query that lists the animals that can fly. */
module Registry {
  import opened Animals

  /** `List<Animal>.Add`: the new animal goes last and nothing else changes. */
  function Add(xs: seq<Animal>, a: Animal): (r: seq<Animal>)
    ensures |r| == |xs| + 1
    ensures r[..|xs|] == xs
    ensures r[|xs|] == a
  {
    xs + [a]
  }

  /** `s` is obtained from `t` by deleting elements, keeping the order. */
  ghost predicate IsSubsequence<T>(s: seq<T>, t: seq<T>)
    decreases |t|
  {
    s == [] || (t != [] && ((s[0] == t[0] && IsSubsequence(s[1..], t[1..])) || IsSubsequence(s, t[1..])))
  }

  /** `OfType<IFly>()`: the animals that implement `IFly`, in registry order. */
  function Flyers(xs: seq<Animal>): (r: seq<Animal>)
    ensures |r| <= |xs|
    ensures forall i :: 0 <= i < |r| ==> CanFly(r[i])
    ensures forall a :: a in r ==> a in xs
    ensures forall a :: a in xs && CanFly(a) ==> a in r
  {
    if xs == [] then []
    else (if CanFly(xs[0]) then [xs[0]] else []) + Flyers(xs[1..])
  }

  /** The query distributes over concatenation, so the flyers of a registry
      grown by appending are the old flyers followed by the new animal when
      it can fly. */
  lemma {:induction false} FlyersConcat(xs: seq<Animal>, ys: seq<Animal>)
    ensures Flyers(xs + ys) == Flyers(xs) + Flyers(ys)
  {
    if xs == [] {
      assert xs + ys == ys;
    } else {
      assert (xs + ys)[0] == xs[0];
      assert (xs + ys)[1..] == xs[1..] + ys;
      FlyersConcat(xs[1..], ys);
    }
  }

  lemma FlyersAfterAdd(xs: seq<Animal>, a: Animal)
    ensures Flyers(Add(xs, a)) == Flyers(xs) + (if CanFly(a) then [a] else [])
  {
    FlyersConcat(xs, [a]);
    assert Flyers([a]) == (if CanFly(a) then [a] else []) + Flyers([]);
  }

  /** The flyers keep the registry's order: they are a subsequence of it. */
  lemma {:induction false} FlyersIsSubsequence(xs: seq<Animal>)
    ensures IsSubsequence(Flyers(xs), xs)
  {
    if xs != [] {
      FlyersIsSubsequence(xs[1..]);
      if !CanFly(xs[0]) {
        assert Flyers(xs) == Flyers(xs[1..]);
      } else {
        assert Flyers(xs)[1..] == Flyers(xs[1..]);
      }
    }
  }

  /** Exactness: every animal that can fly occurs among the flyers as often
      as in the registry, and no other animal occurs at all. */
  lemma {:induction false} FlyersCountsEveryBird(xs: seq<Animal>, a: Animal)
    ensures multiset(Flyers(xs))[a] == if CanFly(a) then multiset(xs)[a] else 0
  {
    if xs != [] {
      FlyersCountsEveryBird(xs[1..], a);
      var head := if CanFly(xs[0]) then [xs[0]] else [];
      assert Flyers(xs) == head + Flyers(xs[1..]);
      assert multiset(Flyers(xs)) == multiset(head) + multiset(Flyers(xs[1..]));
      assert xs == [xs[0]] + xs[1..];
      assert multiset(xs) == multiset([xs[0]]) + multiset(xs[1..]);
    }
  }

  /** There are no flyers exactly when no animal in the registry can fly. */
  lemma FlyersEmptyIff(xs: seq<Animal>)
    ensures Flyers(xs) == [] <==> forall i :: 0 <= i < |xs| ==> !CanFly(xs[i])
  {
    if Flyers(xs) == [] {
      forall i | 0 <= i < |xs|
        ensures !CanFly(xs[i])
      {
        assert xs[i] in xs;
      }
    } else {
      assert Flyers(xs)[0] in xs;
    }
  }

  /** A registry of flyers only is its own flyer list; in particular asking
      twice gives what asking once gives. */
  lemma {:induction false} FlyersOfFlyersOnly(xs: seq<Animal>)
    requires forall i :: 0 <= i < |xs| ==> CanFly(xs[i])
    ensures Flyers(xs) == xs
  {
    if xs != [] {
      FlyersOfFlyersOnly(xs[1..]);
    }
  }

  lemma FlyersIdempotent(xs: seq<Animal>)
    ensures Flyers(Flyers(xs)) == Flyers(xs)
  {
    FlyersOfFlyersOnly(Flyers(xs));
  }

  /** `animals.OfType<IFly>().ToList()` as the enumeration it is: walk the
      registry once and keep each animal that implements `IFly`. */
  method CollectFlyers(xs: seq<Animal>) returns (r: seq<Animal>)
    ensures r == Flyers(xs)
  {
    r := [];
    var i := 0;
    while i < |xs|
      invariant 0 <= i <= |xs|
      invariant r == Flyers(xs[..i])
    {
      var a := xs[i];
      FlyersAfterAdd(xs[..i], a);
      assert Add(xs[..i], a) == xs[..i + 1];
      if CanFly(a) {
        r := r + [a];
      }
      i := i + 1;
    }
    assert xs[..|xs|] == xs;
  }
}
