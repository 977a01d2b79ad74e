/** Pure operations on the favourites list, an ordered sequence of movie
    records keyed by `id`. Nothing here forbids two entries with one id:
    the list is whatever the store holds. */
module FavList {
  import opened Movies

  /** `favs.some(m => m.id === id)`. */
  function HasId(favs: seq<Movie>, id: int): (r: bool)
    ensures r <==> exists i :: 0 <= i < |favs| && favs[i].id == id
  {
    if |favs| == 0 then false
    else if favs[0].id == id then true
    else
      var r := HasId(favs[1..], id);
      assert r ==> exists i :: 0 <= i < |favs| && favs[i].id == id by {
        if r {
          var i :| 0 <= i < |favs[1..]| && favs[1..][i].id == id;
          assert favs[i + 1].id == id;
        }
      }
      r
  }

  /** How many entries carry `id`. */
  function CountId(favs: seq<Movie>, id: int): (n: nat)
    ensures n <= |favs|
    ensures n == 0 <==> !HasId(favs, id)
  {
    if |favs| == 0 then 0
    else (if favs[0].id == id then 1 else 0) + CountId(favs[1..], id)
  }

  /** `a` occurs in `b` with its elements in the same relative order. */
  ghost predicate IsSubsequence<T>(a: seq<T>, b: seq<T>)
    decreases |b|
  {
    || |a| == 0
    || (&& |b| > 0
        && ((|a| > 0 && a[0] == b[0] && IsSubsequence(a[1..], b[1..]))
            || IsSubsequence(a, b[1..])))
  }

  /** `favs.filter(m => m.id !== id)`: drops every copy of `id` and keeps
      every other entry in its original relative order. */
  function RemoveById(favs: seq<Movie>, id: int): (r: seq<Movie>)
    ensures forall k :: 0 <= k < |r| ==> r[k].id != id
    ensures IsSubsequence(r, favs)
    ensures |r| + CountId(favs, id) == |favs|
  {
    if |favs| == 0 then []
    else
      var rest := RemoveById(favs[1..], id);
      if favs[0].id == id then rest
      else
        var r := [favs[0]] + rest;
        assert r[1..] == rest;
        r
  }

  /** A subsequence free of `id` has at most as many entries as `b` has
      entries without `id`. */
  lemma {:induction false} IdFreeSubsequenceBound(s: seq<Movie>, b: seq<Movie>, id: int)
    requires IsSubsequence(s, b)
    requires forall k :: 0 <= k < |s| ==> s[k].id != id
    ensures |s| + CountId(b, id) <= |b|
    decreases |b|
  {
    if |s| == 0 {
    } else {
      if s[0] == b[0] && IsSubsequence(s[1..], b[1..]) {
        IdFreeSubsequenceBound(s[1..], b[1..], id);
      } else {
        IdFreeSubsequenceBound(s, b[1..], id);
      }
    }
  }

  /** The three facts `RemoveById` ensures pin its result down: any list that
      is an id-free subsequence of `favs` of that length is the filter. */
  lemma {:induction false} RemoveByIdIsUnique(favs: seq<Movie>, id: int, s: seq<Movie>)
    requires IsSubsequence(s, favs)
    requires forall k :: 0 <= k < |s| ==> s[k].id != id
    requires |s| + CountId(favs, id) == |favs|
    ensures s == RemoveById(favs, id)
    decreases |favs|
  {
    if |favs| == 0 {
    } else if favs[0].id == id {
      RemoveByIdIsUnique(favs[1..], id, s);
    } else if |s| > 0 && s[0] == favs[0] && IsSubsequence(s[1..], favs[1..]) {
      RemoveByIdIsUnique(favs[1..], id, s[1..]);
      assert s == [s[0]] + s[1..];
    } else if |s| == 0 {
      assert false;
    } else {
      IdFreeSubsequenceBound(s, favs[1..], id);
      assert false;
    }
  }

  /** Every entry whose id differs from `id` keeps its multiplicity. */
  lemma {:induction false} RemoveByIdKeepsOthers(favs: seq<Movie>, id: int, m: Movie)
    requires m.id != id
    ensures multiset(RemoveById(favs, id))[m] == multiset(favs)[m]
    decreases |favs|
  {
    if |favs| > 0 {
      RemoveByIdKeepsOthers(favs[1..], id, m);
      assert favs == [favs[0]] + favs[1..];
    }
  }

  /** Filtering a concatenation filters each half. */
  lemma {:induction false} RemoveByIdDistributes(a: seq<Movie>, b: seq<Movie>, id: int)
    ensures RemoveById(a + b, id) == RemoveById(a, id) + RemoveById(b, id)
    decreases |a|
  {
    if |a| > 0 {
      assert (a + b)[1..] == a[1..] + b;
      RemoveByIdDistributes(a[1..], b, id);
    } else {
      assert a + b == b;
    }
  }

  /** Filtering out an id the list does not hold changes nothing. */
  lemma {:induction false} RemoveAbsentIsIdentity(favs: seq<Movie>, id: int)
    requires !HasId(favs, id)
    ensures RemoveById(favs, id) == favs
    decreases |favs|
  {
    if |favs| > 0 {
      RemoveAbsentIsIdentity(favs[1..], id);
      assert favs == [favs[0]] + favs[1..];
    }
  }

  /** Appending one record adds one to its id's count and nothing else. */
  lemma {:induction false} CountIdAppend(favs: seq<Movie>, m: Movie, id: int)
    ensures CountId(favs + [m], id) == CountId(favs, id) + (if m.id == id then 1 else 0)
    decreases |favs|
  {
    if |favs| > 0 {
      assert (favs + [m])[1..] == favs[1..] + [m];
      CountIdAppend(favs[1..], m, id);
    } else {
      assert (favs + [m])[1..] == [];
    }
  }

}
