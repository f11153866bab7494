/**
  The chunk pool of one conversation and the merge step of `rag` in
  rag_api.py: every search hit is written into the pool under its id, in the
  order the search returned them, overwriting what was there.
*/
module Chunks {

  /** Chunk id to chunk text (`conversation_chunks[conversation_id]`). */
  type Pool = map<string, string>

  /** One search hit: its `_id` and its `fields.chunk_text`. */
  datatype Hit = Hit(id: string, text: string)

  /**
    The pool after `pool[hit.id] = hit.text` for every hit, first to last.
    This is the specification the in-place loop of `rag` is proved against.
  */
  function MergeHits(pool: Pool, hits: seq<Hit>): (p: Pool)
    ensures pool.Keys <= p.Keys
    ensures forall i :: 0 <= i < |hits| ==> hits[i].id in p
    decreases |hits|
  {
    if hits == [] then pool
    else
      var last := hits[|hits| - 1];
      MergeHits(pool, hits[..|hits| - 1])[last.id := last.text]
  }

  /** The ids the hits carry. */
  function HitIds(hits: seq<Hit>): (ids: set<string>) {
    set i | 0 <= i < |hits| :: hits[i].id
  }

  /** `hits[i]` is the last hit with id `k`. */
  ghost predicate LastHitFor(hits: seq<Hit>, k: string, i: int) {
    0 <= i < |hits| && hits[i].id == k && forall j :: i < j < |hits| ==> hits[j].id != k
  }

  /** The pool's keys after a merge are its old keys plus the hit ids: the pool only grows. */
  lemma {:induction false} MergeHitsKeys(pool: Pool, hits: seq<Hit>)
    ensures MergeHits(pool, hits).Keys == pool.Keys + HitIds(hits)
    decreases |hits|
  {
    if hits != [] {
      var init := hits[..|hits| - 1];
      MergeHitsKeys(pool, init);
      assert HitIds(hits) == HitIds(init) + {hits[|hits| - 1].id} by {
        forall k | k in HitIds(hits) ensures k in HitIds(init) + {hits[|hits| - 1].id} {
          var i :| 0 <= i < |hits| && hits[i].id == k;
          if i < |hits| - 1 { assert init[i] == hits[i]; }
        }
        forall k | k in HitIds(init) ensures k in HitIds(hits) {
          var i :| 0 <= i < |init| && init[i].id == k;
          assert hits[i] == init[i];
        }
      }
    }
  }

  /** Last write wins: an id maps to the text of the last hit carrying it. */
  lemma {:induction false} MergeHitsLastWins(pool: Pool, hits: seq<Hit>, k: string, i: int)
    requires LastHitFor(hits, k, i)
    ensures k in MergeHits(pool, hits) && MergeHits(pool, hits)[k] == hits[i].text
    decreases |hits|
  {
    var n := |hits| - 1;
    if i < n {
      var init := hits[..n];
      assert LastHitFor(init, k, i) by {
        forall j | i < j < |init| ensures init[j].id != k { assert init[j] == hits[j]; }
      }
      MergeHitsLastWins(pool, init, k, i);
    }
  }

  /** Ids no hit carries keep their entry, or their absence. */
  lemma {:induction false} MergeHitsKeepsOthers(pool: Pool, hits: seq<Hit>, k: string)
    requires forall i :: 0 <= i < |hits| ==> hits[i].id != k
    ensures k in MergeHits(pool, hits) <==> k in pool
    ensures k in pool ==> MergeHits(pool, hits)[k] == pool[k]
    decreases |hits|
  {
    if hits != [] {
      var init := hits[..|hits| - 1];
      assert forall i :: 0 <= i < |init| ==> init[i] == hits[i];
      MergeHitsKeepsOthers(pool, init, k);
    }
  }

  /** Merging into a pool is overriding it with the merge of the hits alone. */
  lemma {:induction false} MergeHitsOverrides(pool: Pool, hits: seq<Hit>)
    ensures MergeHits(pool, hits) == pool + MergeHits(map[], hits)
    decreases |hits|
  {
    if hits != [] {
      var init := hits[..|hits| - 1];
      MergeHitsOverrides(pool, init);
    }
  }

  /** Merging the same hits twice gives the pool that merging them once gives. */
  lemma MergeHitsIdempotent(pool: Pool, hits: seq<Hit>)
    ensures MergeHits(MergeHits(pool, hits), hits) == MergeHits(pool, hits)
  {
    var alone := MergeHits(map[], hits);
    MergeHitsOverrides(pool, hits);
    MergeHitsOverrides(pool + alone, hits);
    assert (pool + alone) + alone == pool + alone;
  }
}
