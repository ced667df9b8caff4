/**
 * The generator's option table: a PHP array with string keys, which keeps its
 * entries in insertion order. Assigning to an existing key replaces the value
 * in place; assigning to a new key appends the entry.
 */
module OptionArray {
  import opened ShellQuoting

  /**
   * A PHP value as the option table stores it. `Null` and `False` mean "leave
   * the flag out", `True` a flag without a value, and `Val` any other scalar by
   * its string form (the integer 0 is `Val("0")`, which is still emitted).
   */
  datatype Value = Null | False | True | Val(text: string)

  type Entry = (string, Value)

  /** The insertion-ordered key/value pairs. */
  type OptionMap = seq<Entry>

  /** PHP arrays never hold a key twice. */
  ghost predicate DistinctKeys(m: OptionMap) {
    forall i, j :: 0 <= i < j < |m| ==> m[i].0 != m[j].0
  }

  /** `$m[$k]` guarded by `array_key_exists`: None when the key is absent. */
  function Get(m: OptionMap, k: string): (r: Option<Value>)
    ensures r.None? <==> forall i :: 0 <= i < |m| ==> m[i].0 != k
    ensures DistinctKeys(m) ==> forall i :: 0 <= i < |m| && m[i].0 == k ==> r == Some(m[i].1)
  {
    if m == [] then None
    else if m[0].0 == k then Some(m[0].1)
    else Get(m[1..], k)
  }

  /** `$m[$k] = $v`: the value is replaced in place, or the pair appended when the key is new. */
  function Put(m: OptionMap, k: string, v: Value): (r: OptionMap)
    requires DistinctKeys(m)
    ensures DistinctKeys(r)
    ensures Get(m, k).None? ==> r == m + [(k, v)]
    ensures Get(m, k).Some? ==> |r| == |m| && forall i :: 0 <= i < |m| ==> r[i] == (if m[i].0 == k then (k, v) else m[i])
    ensures Get(r, k) == Some(v)
    ensures forall k' :: k' != k ==> Get(r, k') == Get(m, k')
  {
    if m == [] then [(k, v)]
    else if m[0].0 == k then [(k, v)] + m[1..]
    else
      var rest := Put(m[1..], k, v);
      TailKeysAvoid(m);
      AssignKeysAvoid(m[1..], k, v, rest, m[0].0);
      ConsDistinct(m[0], rest);
      [m[0]] + rest
  }

  /** No later entry of a table with distinct keys has the first entry's key. */
  lemma TailKeysAvoid(m: OptionMap)
    requires DistinctKeys(m) && m != []
    ensures forall i :: 0 <= i < |m[1..]| ==> m[1..][i].0 != m[0].0
  {
    forall i | 0 <= i < |m[1..]|
      ensures m[1..][i].0 != m[0].0
    {
      assert m[1..][i] == m[i + 1];
    }
  }

  /** A key that the old table and the assignment avoid is avoided by the new table too. */
  lemma AssignKeysAvoid(m: OptionMap, k: string, v: Value, r: OptionMap, x: string)
    requires Get(m, k).None? ==> r == m + [(k, v)]
    requires Get(m, k).Some? ==> |r| == |m| && forall i :: 0 <= i < |m| ==> r[i] == (if m[i].0 == k then (k, v) else m[i])
    requires k != x && forall i :: 0 <= i < |m| ==> m[i].0 != x
    ensures forall i :: 0 <= i < |r| ==> r[i].0 != x
  {
  }

  /** Putting an entry in front of a table without its key keeps the keys distinct. */
  lemma ConsDistinct(e: Entry, rest: OptionMap)
    requires DistinctKeys(rest) && forall i :: 0 <= i < |rest| ==> rest[i].0 != e.0
    ensures DistinctKeys([e] + rest)
  {
  }

  /** An assignment adds at most one entry and moves no key. */
  lemma PutKeepsKeys(m: OptionMap, k: string, v: Value)
    requires DistinctKeys(m)
    ensures |m| <= |Put(m, k, v)| <= |m| + 1
    ensures forall i :: 0 <= i < |m| ==> Put(m, k, v)[i].0 == m[i].0
  {
    if Get(m, k).None? {
      assert Put(m, k, v) == m + [(k, v)];
    }
  }

  /** The later of two assignments to one key wins, wherever the key sits. */
  lemma {:induction false} PutOverwrite(m: OptionMap, k: string, v1: Value, v2: Value)
    requires DistinctKeys(m)
    ensures Put(Put(m, k, v1), k, v2) == Put(m, k, v2)
  {
    if m != [] && m[0].0 != k {
      PutOverwrite(m[1..], k, v1, v2);
    }
  }

  /** Assignments to two keys already present commute: neither moves an entry. */
  lemma PutPresentCommute(m: OptionMap, k1: string, v1: Value, k2: string, v2: Value)
    requires DistinctKeys(m) && k1 != k2
    requires Get(m, k1).Some? && Get(m, k2).Some?
    ensures Put(Put(m, k1, v1), k2, v2) == Put(Put(m, k2, v2), k1, v1)
  {
    var i := KeyIndex(m, k1);
    var j := KeyIndex(m, k2);
    var p, q := Put(m, k1, v1), Put(m, k2, v2);
    assert p == m[i := (k1, v1)] && DistinctKeys(p) by {
      PutUpdate(m, k1, v1, i);
    }
    assert q == m[j := (k2, v2)] && DistinctKeys(q) by {
      PutUpdate(m, k2, v2, j);
    }
    assert Put(p, k2, v2) == m[i := (k1, v1)][j := (k2, v2)] by {
      PutUpdate(p, k2, v2, j);
    }
    assert Put(q, k1, v1) == m[j := (k2, v2)][i := (k1, v1)] by {
      PutUpdate(q, k1, v1, i);
    }
    UpdatesCommute(m, i, (k1, v1), j, (k2, v2));
  }

  /** Where a present key sits. */
  lemma KeyIndex(m: OptionMap, k: string) returns (i: nat)
    requires Get(m, k).Some?
    ensures i < |m| && m[i].0 == k
  {
    i :| 0 <= i < |m| && m[i].0 == k;
  }

  lemma UpdatesCommute<T>(s: seq<T>, i: nat, x: T, j: nat, y: T)
    requires i < |s| && j < |s| && i != j
    ensures s[i := x][j := y] == s[j := y][i := x]
  {
  }

  /** An assignment to a key already present, as an update of the sequence at the key's position. */
  lemma PutUpdate(m: OptionMap, k: string, v: Value, i: nat)
    requires DistinctKeys(m) && i < |m| && m[i].0 == k
    ensures Put(m, k, v) == m[i := (k, v)]
  {
    var r := Put(m, k, v);
    assert |r| == |m|;
    forall j | 0 <= j < |r| ensures r[j] == m[i := (k, v)][j] {
      if j != i {
        assert m[j].0 != k;
      }
    }
  }

  /** An assignment to a key already present replaces that one entry where it stands. */
  lemma PutAt(m: OptionMap, k: string, v: Value, i: nat)
    requires DistinctKeys(m) && i < |m| && m[i].0 == k
    ensures Put(m, k, v) == m[..i] + [(k, v)] + m[i + 1..]
  {
    var r, s := Put(m, k, v), m[..i] + [(k, v)] + m[i + 1..];
    assert |r| == |s|;
    forall j | 0 <= j < |r| ensures r[j] == s[j] {
      if j < i {
        assert s[j] == m[j];
      } else if j > i {
        assert s[j] == m[j];
      }
    }
  }
}
