/**
 The stored project list. Saving a song removes every stored entry with
 the same id, keeping the others in order, and appends the song at the end.
 */
module Projects {
  import opened Songs

  /** `stored.filter(item => item.id !== id)`. */
  function WithoutId(stored: seq<Song>, id: string): (r: seq<Song>)
    ensures |r| + CountId(stored, id) == |stored|
    ensures forall p :: p in r <==> p in stored && p.id != id
  {
    if |stored| == 0 then []
    else
      var rest := WithoutId(stored[..|stored| - 1], id);
      var last := stored[|stored| - 1];
      assert stored == stored[..|stored| - 1] + [last];
      if last.id != id then rest + [last] else rest
  }

  /** Number of entries carrying `id`. */
  function CountId(stored: seq<Song>, id: string): nat
  {
    if |stored| == 0 then 0
    else CountId(stored[..|stored| - 1], id) + (if stored[|stored| - 1].id == id then 1 else 0)
  }

  /** The list after saving `song`. */
  function Save(stored: seq<Song>, song: Song): (r: seq<Song>)
    ensures |r| > 0 && r[|r| - 1] == song
    ensures CountId(r, song.id) == 1
    ensures forall p :: p in r <==> p == song || (p in stored && p.id != song.id)
    ensures WithoutId(r, song.id) == WithoutId(stored, song.id)
  {
    var kept := WithoutId(stored, song.id);
    NoneLeft(stored, song.id);
    FilterIdempotent(stored, song.id);
    var r := kept + [song];
    assert r[..|r| - 1] == kept;
    r
  }

  /** After the filter no entry carries the id. */
  lemma {:induction false} NoneLeft(stored: seq<Song>, id: string)
    ensures CountId(WithoutId(stored, id), id) == 0
  {
    if |stored| > 0 {
      var init := stored[..|stored| - 1];
      NoneLeft(init, id);
      var rest := WithoutId(init, id);
      var last := stored[|stored| - 1];
      if last.id != id {
        assert (rest + [last])[..|rest|] == rest;
      }
    }
  }

  /** Filtering twice by the same id is filtering once. */
  lemma {:induction false} FilterIdempotent(stored: seq<Song>, id: string)
    ensures WithoutId(WithoutId(stored, id), id) == WithoutId(stored, id)
  {
    if |stored| > 0 {
      var init := stored[..|stored| - 1];
      FilterIdempotent(init, id);
      var rest := WithoutId(init, id);
      var last := stored[|stored| - 1];
      if last.id != id {
        assert (rest + [last])[..|rest|] == rest;
      }
    }
  }

  /** Saving the same song twice leaves the list as saving it once. */
  lemma SaveIdempotent(stored: seq<Song>, song: Song)
    ensures Save(Save(stored, song), song) == Save(stored, song)
  {
  }

  /** `a` occurs in `b` in order, possibly with gaps. */
  predicate Subsequence(a: seq<Song>, b: seq<Song>)
    decreases |b|
  {
    if |a| == 0 then true
    else if |b| == 0 then false
    else if a[|a| - 1] == b[|b| - 1] then Subsequence(a[..|a| - 1], b[..|b| - 1])
    else Subsequence(a, b[..|b| - 1])
  }

  /** The entries kept by the filter stay in their stored order. */
  lemma {:induction false} FilterKeepsOrder(stored: seq<Song>, id: string)
    ensures Subsequence(WithoutId(stored, id), stored)
  {
    if |stored| > 0 {
      var init := stored[..|stored| - 1];
      FilterKeepsOrder(init, id);
      var rest := WithoutId(init, id);
      var last := stored[|stored| - 1];
      if last.id != id {
        assert (rest + [last])[..|rest|] == rest;
      } else if |rest| > 0 {
        assert rest[|rest| - 1] in rest;
      }
    }
  }

  /** Saving keeps the other entries in order, ahead of the saved song. */
  lemma SaveKeepsOrder(stored: seq<Song>, song: Song)
    ensures var r := Save(stored, song);
      Subsequence(r[..|r| - 1], stored)
  {
    var r := Save(stored, song);
    assert r[..|r| - 1] == WithoutId(stored, song.id);
    FilterKeepsOrder(stored, song.id);
  }

  /** No two entries share an id. */
  predicate UniqueIds(stored: seq<Song>)
  {
    forall i, j :: 0 <= i < j < |stored| ==> stored[i].id != stored[j].id
  }

  /** The filter keeps ids unique. */
  lemma {:induction false} FilterKeepsUnique(stored: seq<Song>, id: string)
    requires UniqueIds(stored)
    ensures UniqueIds(WithoutId(stored, id))
  {
    if |stored| > 0 {
      var init := stored[..|stored| - 1];
      assert UniqueIds(init);
      FilterKeepsUnique(init, id);
      var rest := WithoutId(init, id);
      var last := stored[|stored| - 1];
      if last.id != id {
        var r := rest + [last];
        forall i, j | 0 <= i < j < |r|
          ensures r[i].id != r[j].id
        {
          if j == |r| - 1 {
            assert r[i] in init;
            var k :| 0 <= k < |init| && init[k] == r[i];
            assert stored[k] == r[i];
          } else {
            assert r[i] == rest[i] && r[j] == rest[j];
          }
        }
      }
    }
  }

  /** Saving into a list with unique ids gives a list with unique ids. */
  lemma SaveKeepsUnique(stored: seq<Song>, song: Song)
    requires UniqueIds(stored)
    ensures UniqueIds(Save(stored, song))
  {
    var r := Save(stored, song);
    var kept := WithoutId(stored, song.id);
    FilterKeepsUnique(stored, song.id);
    assert r == kept + [song];
    forall i, j | 0 <= i < j < |r|
      ensures r[i].id != r[j].id
    {
      if j == |r| - 1 {
        assert r[i] in kept;
      } else {
        assert r[i] == kept[i] && r[j] == kept[j];
      }
    }
  }
}
