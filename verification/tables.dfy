/** Row-at-a-time upserts into a keyed table and the chunked pix write
    (server/src/usecase.rs:370-388, api/src/usecase.rs:271-289): a
    multi-row `INSERT ... ON CONFLICT DO UPDATE` runs its rows in order, so
    the last row for a key wins; the pending pix rows are popped from the
    back of their vector, at most `CHUNK_SIZE` per statement. */
module Tables {

  import opened Basics

  /** `CHUNK_SIZE`: the most rows one pix statement carries. */
  const CHUNK_SIZE: nat := 512

  // ---------------------------------------------------------------- upsert

  /** Applies `rows` in order; a row overwrites an existing key. */
  function Upsert<K, V>(m: map<K, V>, rows: seq<(K, V)>): map<K, V>
    decreases |rows|
  {
    if rows == [] then m else Upsert(m[rows[0].0 := rows[0].1], rows[1..])
  }

  /** The value of the last row with key `k`, if any. */
  function LastValue<K(==), V>(rows: seq<(K, V)>, k: K): Option<V>
    decreases |rows|
  {
    if rows == [] then None
    else match LastValue(rows[1..], k)
      case Some(v) => Some(v)
      case None => if rows[0].0 == k then Some(rows[0].1) else None
  }

  /** The value of the first row with key `k`, if any. */
  function FirstValue<K(==), V>(rows: seq<(K, V)>, k: K): Option<V>
    decreases |rows|
  {
    if rows == [] then None
    else if rows[0].0 == k then Some(rows[0].1)
    else FirstValue(rows[1..], k)
  }

  /** Last write wins: after the upsert a key holds its last row's value,
      and a key no row mentions keeps its old value (none is deleted). */
  lemma {:induction false} UpsertLastWins<K, V>(m: map<K, V>, rows: seq<(K, V)>, k: K)
    ensures k in Upsert(m, rows) <==> k in m || LastValue(rows, k).Some?
    ensures k in Upsert(m, rows) ==>
              Upsert(m, rows)[k] == (if LastValue(rows, k).Some? then LastValue(rows, k).value else m[k])
    decreases |rows|
  {
    if rows != [] {
      UpsertLastWins(m[rows[0].0 := rows[0].1], rows[1..], k);
    }
  }

  /** `LastValue` read by position: `None` when no row has key `k`,
      otherwise the value of a row with key `k` that no later row
      overrides. */
  lemma {:induction false} LastValueIndex<K, V>(rows: seq<(K, V)>, k: K)
    ensures LastValue(rows, k).None? <==> forall i :: 0 <= i < |rows| ==> rows[i].0 != k
    ensures LastValue(rows, k).Some? ==>
              exists i :: 0 <= i < |rows| && rows[i] == (k, LastValue(rows, k).value)
                          && forall j :: i < j < |rows| ==> rows[j].0 != k
    decreases |rows|
  {
    if rows != [] {
      LastValueIndex(rows[1..], k);
      var tail := rows[1..];
      if LastValue(tail, k).Some? {
        var i :| 0 <= i < |tail| && tail[i] == (k, LastValue(tail, k).value)
                 && forall j :: i < j < |tail| ==> tail[j].0 != k;
        assert rows[i + 1] == tail[i];
        forall j | i + 1 < j < |rows| ensures rows[j].0 != k {
          assert rows[j] == tail[j - 1];
        }
      } else {
        forall i | 0 <= i < |rows| && i > 0 ensures rows[i].0 != k {
          assert rows[i] == tail[i - 1];
        }
        if rows[0].0 == k {
          forall j | 0 < j < |rows| ensures rows[j].0 != k {
            assert rows[j] == tail[j - 1];
          }
        }
      }
    }
  }

  /** The last row of a concatenation comes from its right part when that
      part has one. */
  lemma {:induction false} LastValueAppend<K, V>(a: seq<(K, V)>, b: seq<(K, V)>, k: K)
    ensures LastValue(a + b, k) == if LastValue(b, k).Some? then LastValue(b, k) else LastValue(a, k)
    decreases |a|
  {
    if a != [] {
      assert (a + b)[0] == a[0];
      assert (a + b)[1..] == a[1..] + b;
      LastValueAppend(a[1..], b, k);
    } else {
      assert a + b == b;
    }
  }

  /** Upserting two row sequences one after the other is upserting their
      concatenation. */
  lemma {:induction false} UpsertAppend<K, V>(m: map<K, V>, a: seq<(K, V)>, b: seq<(K, V)>)
    ensures Upsert(Upsert(m, a), b) == Upsert(m, a + b)
    decreases |a|
  {
    if a != [] {
      assert (a + b)[0] == a[0];
      assert (a + b)[1..] == a[1..] + b;
      UpsertAppend(m[a[0].0 := a[0].1], a[1..], b);
    } else {
      assert a + b == b;
    }
  }

  /** The first row of a concatenation comes from its left part when that
      part has one. */
  lemma {:induction false} FirstValueAppend<K, V>(a: seq<(K, V)>, b: seq<(K, V)>, k: K)
    ensures FirstValue(a + b, k) == if FirstValue(a, k).Some? then FirstValue(a, k) else FirstValue(b, k)
    decreases |a|
  {
    if a != [] {
      assert (a + b)[0] == a[0];
      assert (a + b)[1..] == a[1..] + b;
      FirstValueAppend(a[1..], b, k);
    } else {
      assert a + b == b;
    }
  }

  /** A row present in the sequence makes `FirstValue` defined, and when
      every row for `k` carries `v`, so does the first. */
  lemma {:induction false} FirstValueOfUniform<K, V>(rows: seq<(K, V)>, k: K, v: V)
    requires forall i :: 0 <= i < |rows| && rows[i].0 == k ==> rows[i].1 == v
    ensures FirstValue(rows, k).Some? <==> exists i :: 0 <= i < |rows| && rows[i].0 == k
    ensures FirstValue(rows, k).Some? ==> FirstValue(rows, k).value == v
    decreases |rows|
  {
    if rows != [] && rows[0].0 != k {
      FirstValueOfUniform(rows[1..], k, v);
      if exists i :: 0 <= i < |rows| && rows[i].0 == k {
        var i :| 0 <= i < |rows| && rows[i].0 == k;
        assert rows[1..][i - 1].0 == k;
      }
      if exists i :: 0 <= i < |rows[1..]| && rows[1..][i].0 == k {
        var i :| 0 <= i < |rows[1..]| && rows[1..][i].0 == k;
        assert rows[i + 1].0 == k;
      }
    }
  }

  // ---------------------------------------------------------------- popping from the back

  /** The order in which `Vec::pop` hands out a vector's items. */
  function Reverse<T>(s: seq<T>): (r: seq<T>)
    ensures |r| == |s|
    decreases |s|
  {
    if s == [] then [] else [s[|s| - 1]] + Reverse(s[..|s| - 1])
  }

  lemma {:induction false} ReverseAppend<T>(a: seq<T>, b: seq<T>)
    ensures Reverse(a + b) == Reverse(b) + Reverse(a)
    decreases |b|
  {
    if b == [] {
      assert a + b == a;
    } else {
      var c := a + b;
      var x, init := b[|b| - 1], b[..|b| - 1];
      assert c[|c| - 1] == x;
      assert c[..|c| - 1] == a + init;
      assert Reverse(c) == [x] + Reverse(a + init);
      assert Reverse(b) == [x] + Reverse(init);
      ReverseAppend(a, init);
    }
  }

  /** The first row of a sequence is the last row of its reversal. */
  lemma {:induction false} LastValueOfReverse<K, V>(rows: seq<(K, V)>, k: K)
    ensures LastValue(Reverse(rows), k) == FirstValue(rows, k)
    decreases |rows|
  {
    if rows != [] {
      var init := rows[..|rows| - 1];
      var x := rows[|rows| - 1];
      var r := Reverse(rows);
      assert r[0] == x && r[1..] == Reverse(init);
      LastValueOfReverse(init, k);
      assert rows == init + [x];
      FirstValueAppend(init, [x], k);
    }
  }

  // ---------------------------------------------------------------- chunks

  function Flatten<T>(cs: seq<seq<T>>): seq<T>
    decreases |cs|
  {
    if cs == [] then [] else cs[0] + Flatten(cs[1..])
  }

  lemma {:induction false} FlattenAppend<T>(a: seq<seq<T>>, b: seq<seq<T>>)
    ensures Flatten(a + b) == Flatten(a) + Flatten(b)
    decreases |a|
  {
    if a == [] {
      assert a + b == b;
    } else {
      assert (a + b)[0] == a[0];
      assert (a + b)[1..] == a[1..] + b;
      FlattenAppend(a[1..], b);
    }
  }

  /** Every chunk is non-empty and within the limit, and all but the last
      are full. */
  predicate WellSized<T>(cs: seq<seq<T>>) {
    forall i :: 0 <= i < |cs| ==> 0 < |cs[i]| <= CHUNK_SIZE && (i < |cs| - 1 ==> |cs[i]| == CHUNK_SIZE)
  }

  /** The chunks the `while !pixes.is_empty()` loop sends: each is the next
      `CHUNK_SIZE` (or fewer, at the end) items popped off the back.
      Together they hand out every pending item exactly once, in pop
      order. */
  function Chunks<T>(pending: seq<T>): (cs: seq<seq<T>>)
    ensures Flatten(cs) == Reverse(pending)
    decreases |pending|
  {
    if pending == [] then []
    else
      var n := if |pending| < CHUNK_SIZE then |pending| else CHUNK_SIZE;
      var cut := |pending| - n;
      ReverseAppend(pending[..cut], pending[cut..]);
      assert pending[..cut] + pending[cut..] == pending;
      [Reverse(pending[cut..])] + Chunks(pending[..cut])
  }

  /** Every chunk is non-empty and within the limit, and only the last may
      be short. */
  lemma {:induction false} ChunksWellSized<T>(pending: seq<T>)
    ensures WellSized(Chunks(pending))
    ensures |Chunks(pending)| == (|pending| + CHUNK_SIZE - 1) / CHUNK_SIZE
    decreases |pending|
  {
    if pending != [] {
      var n := if |pending| < CHUNK_SIZE then |pending| else CHUNK_SIZE;
      ChunksWellSized(pending[..|pending| - n]);
    }
  }

  /** Popping one more item off the back appends it to the popped ones. */
  lemma PopOne<T>(pixes: seq<T>, n: nat)
    requires n < |pixes|
    ensures Reverse(pixes[|pixes| - (n + 1)..]) == Reverse(pixes[|pixes| - n..]) + [pixes[|pixes| - (n + 1)]]
  {
    var j := |pixes| - (n + 1);
    assert pixes[j..] == [pixes[j]] + pixes[j + 1..] by {
      assert pixes[j..][1..] == pixes[j + 1..];
    }
    ReverseAppend([pixes[j]], pixes[j + 1..]);
  }

  /** One pass of the inner `for _ in 0..CHUNK_SIZE` loop: pops up to
      `CHUNK_SIZE` items off the back of `pixes`. */
  method PopChunk<T>(pixes: seq<T>) returns (items: seq<T>, rest: seq<T>)
    requires pixes != []
    ensures Chunks(pixes) == [items] + Chunks(rest)
    ensures |rest| < |pixes|
  {
    items := [];
    rest := pixes;
    var n := 0;
    var k := if |pixes| < CHUNK_SIZE then |pixes| else CHUNK_SIZE;
    while n < CHUNK_SIZE && rest != []
      invariant 0 <= n <= k
      invariant rest == pixes[..|pixes| - n]
      invariant items == Reverse(pixes[|pixes| - n..])
      decreases CHUNK_SIZE - n
    {
      var item := rest[|rest| - 1];
      rest := rest[..|rest| - 1];
      PopOne(pixes, n);
      items := items + [item];
      n := n + 1;
    }
    assert n == k;
  }

  /** The `while !pixes.is_empty()` loop: pops chunks until nothing is
      pending. */
  method SplitIntoChunks<T>(pending: seq<T>) returns (chunks: seq<seq<T>>)
    ensures chunks == Chunks(pending)
    ensures Flatten(chunks) == Reverse(pending)
    ensures WellSized(chunks)
  {
    var pixes := pending;
    chunks := [];
    while pixes != []
      invariant chunks + Chunks(pixes) == Chunks(pending)
      decreases |pixes|
    {
      var items, rest := PopChunk(pixes);
      assert chunks + Chunks(pixes) == (chunks + [items]) + Chunks(rest);
      chunks := chunks + [items];
      pixes := rest;
    }
    assert chunks + [] == chunks;
    ChunksWellSized(pending);
  }
}
