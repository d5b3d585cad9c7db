/**
 * Dictionaries filled by a sequence of assignments `table[key] = value`, as
 * the keyword tables of lib/synonyms.js and lib/search.js are: entries are
 * processed in order, each writes one value under a list of keys, and a
 * later write to a key replaces an earlier one.
 */
module Registry {

  /** Writes `v` under each key of `ks`, in order. */
  function Put(m: map<string, string>, ks: seq<string>, v: string): (r: map<string, string>)
    ensures forall k :: k in r <==> k in m || k in ks
    ensures forall k :: k in r ==> r[k] == if k in ks then v else m[k]
    decreases |ks|
  {
    if ks == [] then m else Put(m[ks[0] := v], ks[1..], v)
  }

  /** One more key at the end is one more assignment. */
  lemma PutSnoc(m: map<string, string>, ks: seq<string>, k: string, v: string)
    ensures Put(m, ks + [k], v) == Put(m, ks, v)[k := v]
  {
  }

  /** Writing two key lists is writing their concatenation. */
  lemma {:induction false} PutAppend(m: map<string, string>, a: seq<string>, b: seq<string>, v: string)
    ensures Put(m, a + b, v) == Put(Put(m, a, v), b, v)
    decreases |a|
  {
    if a != [] {
      assert (a + b)[1..] == a[1..] + b;
      PutAppend(m[a[0] := v], a[1..], b, v);
    }
  }

  /** The table after processing `entries`, in order, starting from `m`. */
  function FillFrom<E>(m: map<string, string>, entries: seq<E>, keys: E -> seq<string>, val: E -> string): map<string, string>
    decreases |entries|
  {
    if entries == [] then m
    else
      var last := entries[|entries| - 1];
      Put(FillFrom(m, entries[..|entries| - 1], keys, val), keys(last), val(last))
  }

  /** The table after processing `entries` from an empty dictionary. */
  function Fill<E>(entries: seq<E>, keys: E -> seq<string>, val: E -> string): map<string, string> {
    FillFrom(map[], entries, keys, val)
  }

  /** Processing two runs of entries one after the other is processing their concatenation. */
  lemma {:induction false} FillAppend<E>(m: map<string, string>, a: seq<E>, b: seq<E>, keys: E -> seq<string>, val: E -> string)
    ensures FillFrom(m, a + b, keys, val) == FillFrom(FillFrom(m, a, keys, val), b, keys, val)
    decreases |b|
  {
    if b == [] {
      assert a + b == a;
    } else {
      var n := |b| - 1;
      assert (a + b)[..|a + b| - 1] == a + b[..n];
      FillAppend(m, a, b[..n], keys, val);
    }
  }

  /** One more entry is one more round of assignments. */
  lemma FillSnoc<E>(m: map<string, string>, entries: seq<E>, e: E, keys: E -> seq<string>, val: E -> string)
    ensures FillFrom(m, entries + [e], keys, val) == Put(FillFrom(m, entries, keys, val), keys(e), val(e))
  {
    assert (entries + [e])[..|entries|] == entries;
  }

  /** Processing one more entry of `entries`. */
  lemma FillPrefixStep<E>(m: map<string, string>, entries: seq<E>, j: nat, keys: E -> seq<string>, val: E -> string)
    requires j < |entries|
    ensures FillFrom(m, entries[..j + 1], keys, val) == Put(FillFrom(m, entries[..j], keys, val), keys(entries[j]), val(entries[j]))
  {
    assert entries[..j + 1] == entries[..j] + [entries[j]];
    FillSnoc(m, entries[..j], entries[j], keys, val);
  }

  /** No entry after index `i` writes `k`. */
  predicate LastWriter<E>(entries: seq<E>, keys: E -> seq<string>, i: nat, k: string)
    requires i < |entries|
  {
    k in keys(entries[i]) && forall j :: i < j < |entries| ==> k !in keys(entries[j])
  }

  /** A key is in the table exactly when some entry writes it. */
  lemma {:induction false} FillKeys<E>(entries: seq<E>, keys: E -> seq<string>, val: E -> string, k: string)
    ensures k in Fill(entries, keys, val) <==> exists i :: 0 <= i < |entries| && k in keys(entries[i])
    decreases |entries|
  {
    if entries != [] {
      var n := |entries| - 1;
      var prefix := entries[..n];
      FillKeys(prefix, keys, val, k);
      if k in Fill(entries, keys, val) && k !in keys(entries[n]) {
        var i :| 0 <= i < |prefix| && k in keys(prefix[i]);
        assert prefix[i] == entries[i];
      }
      if exists i :: 0 <= i < |entries| && k in keys(entries[i]) {
        var i :| 0 <= i < |entries| && k in keys(entries[i]);
        if i < n {
          assert prefix[i] == entries[i];
        }
      }
    }
  }

  /** The last entry that writes a key decides its value. */
  lemma {:induction false} FillLast<E>(entries: seq<E>, keys: E -> seq<string>, val: E -> string, i: nat, k: string)
    requires i < |entries| && LastWriter(entries, keys, i, k)
    ensures k in Fill(entries, keys, val) && Fill(entries, keys, val)[k] == val(entries[i])
    decreases |entries|
  {
    var n := |entries| - 1;
    var prefix := entries[..n];
    if i < n {
      assert LastWriter(prefix, keys, i, k) by {
        forall j | i < j < |prefix| ensures k !in keys(prefix[j]) {
          assert prefix[j] == entries[j];
        }
      }
      FillLast(prefix, keys, val, i, k);
    }
  }

  /** Every value in the table is the value of an entry that writes its key, and of the last one. */
  lemma FillValue<E>(entries: seq<E>, keys: E -> seq<string>, val: E -> string, k: string)
    requires k in Fill(entries, keys, val)
    ensures exists i :: (0 <= i < |entries| && LastWriter(entries, keys, i, k)
      && Fill(entries, keys, val)[k] == val(entries[i]))
  {
    FillKeys(entries, keys, val, k);
    var i :| 0 <= i < |entries| && k in keys(entries[i]);
    var last := LastIndex(entries, keys, i, k);
    FillLast(entries, keys, val, last, k);
  }

  /** The index of the last entry at or after `i` that writes `k`. */
  ghost function LastIndex<E>(entries: seq<E>, keys: E -> seq<string>, i: nat, k: string): (r: nat)
    requires i < |entries| && k in keys(entries[i])
    ensures i <= r < |entries| && LastWriter(entries, keys, r, k)
    decreases |entries| - i
  {
    if forall j :: i < j < |entries| ==> k !in keys(entries[j]) then i
    else
      var j :| i < j < |entries| && k in keys(entries[j]);
      LastIndex(entries, keys, j, k)
  }
}
