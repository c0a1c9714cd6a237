/** A bounded table of built graphs keyed by layout
    (app/core/graph_cache.py). The table is a Python dictionary, so it
    remembers insertion order; when full it drops its first key. */
module Caching {
  import opened Wrappers
  import opened Graph

  // ------------------------------------------------------------------ keys

  /** `''.join(row)`. */
  function JoinRow(row: seq<string>): string
  {
    if row == [] then "" else JoinRow(row[..|row| - 1]) + row[|row| - 1]
  }

  /** `''.join([''.join(row) for row in layout])`. */
  function JoinLayout(layout: seq<seq<string>>): string
  {
    if layout == [] then "" else JoinLayout(layout[..|layout| - 1]) + JoinRow(layout[|layout| - 1])
  }

  /** `get_cache_key`. The digest is left out: the key is the concatenated
      layout itself, so two layouts share a key exactly when their
      concatenations agree. */
  function CacheKey(layout: seq<seq<string>>): string
  {
    JoinLayout(layout)
  }

  lemma {:induction false} JoinRowAppend(a: seq<string>, b: seq<string>)
    ensures JoinRow(a + b) == JoinRow(a) + JoinRow(b)
    decreases |b|
  {
    if b != [] {
      var n := |b| - 1;
      assert (a + b)[..|a + b| - 1] == a + b[..n];
      JoinRowAppend(a, b[..n]);
    } else {
      assert a + b == a;
    }
  }

  /** The key ignores where the rows break: the whole layout gives the same
      key as its cells laid out as one row, and layouts with the same cells
      in the same order share a key. */
  lemma CacheKeyIgnoresRows(layout: seq<seq<string>>, other: seq<seq<string>>)
    ensures CacheKey(layout) == CacheKey([Cells(layout)])
    ensures Cells(layout) == Cells(other) ==> CacheKey(layout) == CacheKey(other)
  {
    CellsJoin(layout);
    CellsJoin(other);
    assert JoinLayout([Cells(layout)]) == JoinLayout([]) + JoinRow(Cells(layout));
  }

  /** The cells of the layout, row after row. */
  function Cells(layout: seq<seq<string>>): seq<string>
  {
    if layout == [] then [] else Cells(layout[..|layout| - 1]) + layout[|layout| - 1]
  }

  lemma {:induction false} CellsJoin(layout: seq<seq<string>>)
    ensures JoinLayout(layout) == JoinRow(Cells(layout))
    decreases |layout|
  {
    if layout != [] {
      var n := |layout| - 1;
      CellsJoin(layout[..n]);
      JoinRowAppend(Cells(layout[..n]), layout[n]);
    }
  }

  // ----------------------------------------------------------------- state

  /** The dictionary as a value: its keys in insertion order and its
      entries. */
  datatype CacheState = CacheState(keys: seq<string>, entries: map<string, RoadGraph>)

  /** The keys are those of the entries, each once. */
  predicate Consistent(st: CacheState)
  {
    && (forall k :: k in st.keys ==> k in st.entries)
    && (forall k :: k in st.entries ==> k in st.keys)
    && (forall i, j :: 0 <= i < j < |st.keys| ==> st.keys[i] != st.keys[j])
  }

  /** `cache.get(key)`. */
  function CacheLookup(st: CacheState, key: string): Option<RoadGraph>
  {
    if key in st.entries then Some(st.entries[key]) else None
  }

  /** What `put` makes of the table: when the table holds `maxSize` entries or more it drops its
      first key, then stores the graph under the key, a present key keeping
      its place and a new one going last. None stands for the StopIteration
      of dropping from an empty table, which happens only when `maxSize` is
      0 or less. */
  function Stored(st: CacheState, maxSize: int, key: string, g: RoadGraph): Option<CacheState>
  {
    if |st.keys| >= maxSize && st.keys == [] then None
    else
      var kept := if |st.keys| >= maxSize then CacheState(st.keys[1..], st.entries - {st.keys[0]}) else st;
      var keys := if key in kept.keys then kept.keys else kept.keys + [key];
      Some(CacheState(keys, kept.entries[key := g]))
  }

  /** Putting fails only on an empty table whose bound is not positive; it
      keeps the table consistent and a positive bound respected. */
  lemma PutKeepsBound(st: CacheState, maxSize: int, key: string, g: RoadGraph)
    requires Consistent(st)
    ensures Stored(st, maxSize, key, g).None? <==> st.keys == [] && maxSize <= 0
    ensures Stored(st, maxSize, key, g).Some? ==> Consistent(Stored(st, maxSize, key, g).value)
    ensures Stored(st, maxSize, key, g).Some? && |st.keys| <= maxSize ==>
      |Stored(st, maxSize, key, g).value.keys| <= maxSize
  {
    if st.keys != [] || maxSize > 0 {
      var full := |st.keys| >= maxSize;
      var kept := if full then CacheState(st.keys[1..], st.entries - {st.keys[0]}) else st;
      if full {
        DropFirstConsistent(st);
      }
      AddKeyConsistent(kept, key, g);
    }
  }

  /** Dropping the first key keeps the table consistent. */
  lemma DropFirstConsistent(st: CacheState)
    requires Consistent(st) && st.keys != []
    ensures Consistent(CacheState(st.keys[1..], st.entries - {st.keys[0]}))
  {
    var kept := st.keys[1..];
    forall k | k in kept ensures k != st.keys[0] {
      var i :| 0 <= i < |kept| && kept[i] == k;
      assert st.keys[i + 1] == k;
    }
    forall k | k in st.entries && k != st.keys[0] ensures k in kept {
      assert k in st.keys;
      var i :| 0 <= i < |st.keys| && st.keys[i] == k;
      assert kept[i - 1] == k;
    }
  }

  /** Storing under a key, new keys going last, keeps the table consistent. */
  lemma AddKeyConsistent(st: CacheState, key: string, g: RoadGraph)
    requires Consistent(st)
    ensures Consistent(CacheState(if key in st.keys then st.keys else st.keys + [key], st.entries[key := g]))
  {
  }

  /** After a put, the key gives the graph just stored. */
  lemma PutThenGet(st: CacheState, maxSize: int, key: string, g: RoadGraph)
    requires Stored(st, maxSize, key, g).Some?
    ensures CacheLookup(Stored(st, maxSize, key, g).value, key) == Some(g)
  {
  }

  /** Any other key keeps its graph unless it was the first key of a full
      table, which is dropped; the key put is dropped and stored again at
      the end when it was that first key. */
  lemma PutOthers(st: CacheState, maxSize: int, key: string, g: RoadGraph, other: string)
    requires Consistent(st) && Stored(st, maxSize, key, g).Some? && other != key
    ensures var r := Stored(st, maxSize, key, g).value;
      if |st.keys| >= maxSize && other == st.keys[0] then CacheLookup(r, other) == None
      else CacheLookup(r, other) == CacheLookup(st, other)
  {
  }

  /** When full, the first key goes even when the key put is already
      stored elsewhere, so the table shrinks by one; when the first key is
      the one put, it moves to the end. */
  lemma PutEvictsOldest(st: CacheState, maxSize: int, key: string, g: RoadGraph)
    requires Consistent(st) && st.keys != [] && |st.keys| >= maxSize
    ensures var r := Stored(st, maxSize, key, g).value;
      && (key in st.keys[1..] ==> r.keys == st.keys[1..])
      && (key !in st.keys[1..] ==> r.keys == st.keys[1..] + [key])
  {
  }

  // ----------------------------------------------------------------- class

  class GraphCache {
    var keys: seq<string>
    var entries: map<string, RoadGraph>
    const maxSize: int

    function State(): CacheState
      reads this
    {
      CacheState(keys, entries)
    }

    /** The table is consistent and within its bound (a table whose bound is
        not positive stays empty). */
    ghost predicate Valid()
      reads this
    {
      Consistent(State()) && (|keys| <= maxSize || keys == [])
    }

    /** `max_size` defaults to 100, as in the Python code. */
    constructor (maxSize: int := 100)
      ensures Valid() && this.maxSize == maxSize && keys == [] && entries == map[]
    {
      keys := [];
      entries := map[];
      this.maxSize := maxSize;
    }

    /** `get`: reads the table and changes nothing. */
    function Get(layout: seq<seq<string>>): (r: Option<RoadGraph>)
      reads this
      ensures r.Some? <==> CacheKey(layout) in entries
      ensures r.Some? ==> r.value == entries[CacheKey(layout)]
    {
      CacheLookup(State(), CacheKey(layout))
    }

    /** `put`; `ok` is false where the Python code raises StopIteration. */
    method Put(layout: seq<seq<string>>, graph: RoadGraph) returns (ok: bool)
      requires Valid()
      modifies this`keys, this`entries
      ensures Valid()
      ensures ok <==> Stored(old(State()), maxSize, CacheKey(layout), graph).Some?
      ensures ok ==> State() == Stored(old(State()), maxSize, CacheKey(layout), graph).value
      ensures !ok ==> State() == old(State())
    {
      PutKeepsBound(State(), maxSize, CacheKey(layout), graph);
      if |keys| >= maxSize {
        if keys == [] {
          return false;
        }
        var oldest := keys[0];
        entries := entries - {oldest};
        keys := keys[1..];
      }
      var key := CacheKey(layout);
      if key !in keys {
        keys := keys + [key];
      }
      entries := entries[key := graph];
      return true;
    }
  }
}
