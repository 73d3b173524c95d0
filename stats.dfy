/**
 * `ETLStats`, the statistics collector: a dictionary from names to the
 * figures the transformation records (table shapes, counts, seconds).
 */
module Stats {
  import opened Wrappers

  /** A recorded figure: `df.shape`, an integer, or a duration in seconds. */
  datatype Stat = Shape(rows: int, cols: int) | Count(n: int) | Seconds(x: real)

  /** `add_stat` applied to each entry in turn; a later entry for a key replaces an earlier one. */
  function Recorded(m: map<string, Stat>, entries: seq<(string, Stat)>): map<string, Stat>
    decreases |entries|
  {
    if entries == [] then m
    else
      var last := entries[|entries| - 1];
      Recorded(m, entries[..|entries| - 1])[last.0 := last.1]
  }

  /** The keys a sequence of entries mentions. */
  function Keys(entries: seq<(string, Stat)>): (ks: set<string>)
    ensures forall k :: k in ks <==> exists i :: 0 <= i < |entries| && entries[i].0 == k
    decreases |entries|
  {
    if entries == [] then {}
    else
      var init := entries[..|entries| - 1];
      assert forall i :: 0 <= i < |init| ==> init[i] == entries[i];
      Keys(init) + {entries[|entries| - 1].0}
  }

  /** Recording adds exactly the mentioned keys. */
  lemma {:induction false} RecordedKeys(m: map<string, Stat>, entries: seq<(string, Stat)>)
    ensures Recorded(m, entries).Keys == m.Keys + Keys(entries)
    decreases |entries|
  {
    if entries != [] {
      RecordedKeys(m, entries[..|entries| - 1]);
    }
  }

  lemma KeysAppend(a: seq<(string, Stat)>, b: seq<(string, Stat)>)
    ensures Keys(a + b) == Keys(a) + Keys(b)
  {
    forall k | k in Keys(a + b) ensures k in Keys(a) + Keys(b) {
      var i :| 0 <= i < |a + b| && (a + b)[i].0 == k;
      if i >= |a| {
        assert b[i - |a|] == (a + b)[i];
      }
    }
    forall k | k in Keys(a) ensures k in Keys(a + b) {
      var i :| 0 <= i < |a| && a[i].0 == k;
      assert (a + b)[i] == a[i];
    }
    forall k | k in Keys(b) ensures k in Keys(a + b) {
      var i :| 0 <= i < |b| && b[i].0 == k;
      assert (a + b)[|a| + i] == b[i];
    }
  }

  lemma KeysOfOne(e: (string, Stat))
    ensures Keys([e]) == {e.0}
  {
    assert [e][..0] == [];
  }

  /** Each key holds the figure of its last entry. */
  lemma {:induction false} RecordedLast(m: map<string, Stat>, entries: seq<(string, Stat)>, i: nat)
    requires i < |entries| && forall j :: i < j < |entries| ==> entries[j].0 != entries[i].0
    ensures entries[i].0 in Recorded(m, entries) && Recorded(m, entries)[entries[i].0] == entries[i].1
    decreases |entries|
  {
    var init := entries[..|entries| - 1];
    var last := entries[|entries| - 1];
    if i < |init| {
      assert entries[i] == init[i];
      assert last.0 != entries[i].0;
      forall j | i < j < |init| ensures init[j].0 != init[i].0 {
        assert init[j] == entries[j];
      }
      RecordedLast(m, init, i);
    }
  }

  /** A key with no entry keeps its old figure. */
  lemma {:induction false} RecordedUntouched(m: map<string, Stat>, entries: seq<(string, Stat)>, k: string)
    requires k in m && forall i :: 0 <= i < |entries| ==> entries[i].0 != k
    ensures k in Recorded(m, entries) && Recorded(m, entries)[k] == m[k]
    decreases |entries|
  {
    if entries != [] {
      var init := entries[..|entries| - 1];
      forall i | 0 <= i < |init| ensures init[i].0 != k {
        assert init[i] == entries[i];
      }
      RecordedUntouched(m, init, k);
    }
  }

  /** Recording two runs of entries is recording the first, then the second. */
  lemma {:induction false} RecordedAppend(m: map<string, Stat>, a: seq<(string, Stat)>, b: seq<(string, Stat)>)
    ensures Recorded(m, a + b) == Recorded(Recorded(m, a), b)
    decreases |b|
  {
    if b != [] {
      var init := b[..|b| - 1];
      assert (a + b)[..|a + b| - 1] == a + init;
      assert (a + b)[|a + b| - 1] == b[|b| - 1];
      RecordedAppend(m, a, init);
    } else {
      assert a + b == a;
    }
  }

  /** Recording one more entry is one more `add_stat`. */
  lemma RecordedSnoc(m: map<string, Stat>, entries: seq<(string, Stat)>, key: string, value: Stat)
    ensures Recorded(m, entries + [(key, value)]) == Recorded(m, entries)[key := value]
  {
    assert (entries + [(key, value)])[..|entries|] == entries;
  }

  /** Recording one entry more of the same sequence. */
  lemma RecordedPrefix(m: map<string, Stat>, entries: seq<(string, Stat)>, k: nat)
    requires k < |entries|
    ensures Recorded(m, entries[..k + 1]) == Recorded(m, entries[..k])[entries[k].0 := entries[k].1]
  {
    assert entries[..k + 1] == entries[..k] + [entries[k]];
    RecordedSnoc(m, entries[..k], entries[k].0, entries[k].1);
  }

  /**
   * `increment_counter`: an absent key starts at 0, then `amount` is added
   * with `+=`; adding an integer to a shape tuple raises (`None`).
   */
  function Incremented(m: map<string, Stat>, key: string, amount: int): (r: Option<map<string, Stat>>)
    ensures r.None? <==> key in m && m[key].Shape?
    ensures r.Some? ==> r.value.Keys == m.Keys + {key}
    ensures r.Some? ==> forall k :: k in m && k != key ==> r.value[k] == m[k]
    ensures key !in m ==> r == Some(m[key := Count(amount)])
    ensures key in m && m[key].Count? ==> r == Some(m[key := Count(m[key].n + amount)])
    ensures key in m && m[key].Seconds? ==> r == Some(m[key := Seconds(m[key].x + amount as real)])
  {
    if key !in m then Some(m[key := Count(amount)])
    else match m[key]
      case Count(n) => Some(m[key := Count(n + amount)])
      case Seconds(x) => Some(m[key := Seconds(x + amount as real)])
      case Shape(_, _) => None
  }

  /** Two increments of a counter add up to one increment by their sum. */
  lemma IncrementsAdd(m: map<string, Stat>, key: string, a: int, b: int)
    requires key !in m || m[key].Count?
    ensures Incremented(m, key, a).Some?
    ensures Incremented(Incremented(m, key, a).value, key, b) == Incremented(m, key, a + b)
  {
    var m1 := Incremented(m, key, a).value;
    if key in m {
      assert m1 == m[key := Count(m[key].n + a)];
      assert m1[key := Count(m[key].n + a + b)] == m[key := Count(m[key].n + (a + b))];
    } else {
      assert m1[key := Count(a + b)] == m[key := Count(a + b)];
    }
  }

  /** The statistics collector. */
  class ETLStats {
    var stats: map<string, Stat>

    /** A collector with nothing recorded. */
    constructor ()
      ensures stats == map[]
    {
      stats := map[];
    }

    /** `add_stat`: record `value` under `key`, replacing what was there. */
    method AddStat(key: string, value: Stat)
      modifies this
      ensures stats == old(stats)[key := value]
    {
      stats := stats[key := value];
    }

    /**
     * `increment_counter`: `raised` when the current figure is a shape; the
     * dictionary is then left as it was. Python's default `amount=1` is the
     * caller passing 1.
     */
    method IncrementCounter(key: string, amount: int) returns (raised: bool)
      modifies this
      ensures raised <==> Incremented(old(stats), key, amount).None?
      ensures !raised ==> stats == Incremented(old(stats), key, amount).value
      ensures raised ==> stats == old(stats)
      ensures key in old(stats) && old(stats)[key].Count? ==> stats == old(stats)[key := Count(old(stats)[key].n + amount)]
      ensures key in old(stats) && old(stats)[key].Seconds? ==> stats == old(stats)[key := Seconds(old(stats)[key].x + amount as real)]
      ensures key !in old(stats) ==> stats == old(stats)[key := Count(amount)]
    {
      if key !in stats {
        stats := stats[key := Count(0)];
      }
      match stats[key]
      case Count(n) =>
        stats := stats[key := Count(n + amount)];
        raised := false;
      case Seconds(x) =>
        stats := stats[key := Seconds(x + amount as real)];
        raised := false;
      case Shape(_, _) =>
        raised := true;
    }

    /** `get_stats`: a copy of the dictionary. */
    method GetStats() returns (copy: map<string, Stat>)
      ensures copy == stats
    {
      copy := stats;
    }

    /** `get_all_stats`: the same copy as `get_stats`. */
    method GetAllStats() returns (copy: map<string, Stat>)
      ensures copy == stats
    {
      copy := GetStats();
    }
  }
}
