/** The chapter ledger: a Python dict from chapter key to word count. Python
    dicts remember first-insertion order, so the ledger is an association
    list: the keys in insertion order, and a map giving each key its value. */
module Ledgers {
  import opened Wrappers

  /** A chapter key: a heading line, or `None` when the text has no heading. */
  type Key = Option<string>

  datatype Ledger = Ledger(keys: seq<Key>, counts: map<Key, nat>)
  {
    /** Keys are unique and are exactly the keys that have a value. */
    ghost predicate Valid()
    {
      && (forall i, j | 0 <= i < j < |keys| :: keys[i] != keys[j])
      && (forall k :: k in counts <==> k in keys)
    }

    /** `d.get(k, default)` */
    function Get(k: Key, default: nat): nat
    {
      if k in counts then counts[k] else default
    }

    /** `d[k] = v`: a key already present keeps its position and has its value
        replaced; a new key goes to the end. */
    function Set(k: Key, v: nat): (d: Ledger)
      ensures Valid() ==> d.Valid()
      ensures d.counts == counts[k := v]
      ensures k in keys ==> d.keys == keys
      ensures k !in keys ==> d.keys == keys + [k]
    {
      if k in keys then Ledger(keys, counts[k := v]) else Ledger(keys + [k], counts[k := v])
    }
  }

  const Empty: Ledger := Ledger([], map[])

  /** Assigning twice to one key is the same as assigning the second value
      only: the position is fixed by the first insertion. */
  lemma SetTwice(d: Ledger, k: Key, v: nat, w: nat)
    ensures d.Set(k, v).Set(k, w) == d.Set(k, w)
  {
    assert d.counts[k := v][k := w] == d.counts[k := w];
  }
}
