// The slot arrays of naive.c and wheel_exact.c: lists of ids, with id-indexed metadata that tells
// where in which list each id is, so that one can be removed by moving the last one into its place.
module Slots {
  import opened TimerBag

  // id_expire, id_slot (or id_lvl and id_idx) and id_pos of a live id.
  datatype Meta = Meta(expire: nat, slot: nat, pos: nat)

  // The metadata is the inverse of the lists.
  predicate Indexed(slots: seq<seq<nat>>, meta: map<nat, Meta>)
  {
    && (forall k, j :: 0 <= k < |slots| && 0 <= j < |slots[k]| ==> At(slots, meta, k, j))
    && (forall id :: id in meta ==> Found(slots, meta, id))
  }

  predicate At(slots: seq<seq<nat>>, meta: map<nat, Meta>, k: nat, j: nat)
    requires k < |slots| && j < |slots[k]|
  {
    var id := slots[k][j];
    id in meta && meta[id].slot == k && meta[id].pos == j
  }

  predicate Found(slots: seq<seq<nat>>, meta: map<nat, Meta>, id: nat)
    requires id in meta
  {
    var x := meta[id];
    x.slot < |slots| && x.pos < |slots[x.slot]| && slots[x.slot][x.pos] == id
  }

  function Deadlines(meta: map<nat, Meta>): map<nat, nat> { map id | id in meta :: meta[id].expire }

  lemma DeadlinesHas(meta: map<nat, Meta>, id: nat)
    ensures id in Deadlines(meta) <==> id in meta
  {
  }

  // slot_push and the metadata that place sets after it.
  function Push(slots: seq<seq<nat>>, k: nat, id: nat): seq<seq<nat>>
    requires k < |slots|
  {
    slots[k := slots[k] + [id]]
  }

  function PushMeta(slots: seq<seq<nat>>, meta: map<nat, Meta>, k: nat, id: nat, expire: nat): map<nat, Meta>
    requires k < |slots|
  {
    meta[id := Meta(expire, k, |slots[k]|)]
  }

  lemma PushKeeps(slots: seq<seq<nat>>, meta: map<nat, Meta>, k: nat, id: nat, expire: nat)
    requires Indexed(slots, meta) && k < |slots| && id !in meta
    ensures Indexed(Push(slots, k, id), PushMeta(slots, meta, k, id, expire))
    ensures Deadlines(PushMeta(slots, meta, k, id, expire)) == Deadlines(meta)[id := expire]
  {
    var s, m := Push(slots, k, id), PushMeta(slots, meta, k, id, expire);
    forall i, j | 0 <= i < |s| && 0 <= j < |s[i]| ensures At(s, m, i, j) {
      if j < |slots[i]| { assert At(slots, meta, i, j); }
    }
    forall x | x in m ensures Found(s, m, x) {
      if x != id { assert Found(slots, meta, x); }
    }
  }

  // slot_remove_at, and marking the id absent.
  function RemoveAt(slots: seq<seq<nat>>, k: nat, pos: nat): seq<seq<nat>>
    requires k < |slots| && pos < |slots[k]|
  {
    var last := |slots[k]| - 1;
    slots[k := slots[k][pos := slots[k][last]][..last]]
  }

  function RemoveMeta(slots: seq<seq<nat>>, meta: map<nat, Meta>, k: nat, pos: nat): map<nat, Meta>
    requires Indexed(slots, meta) && k < |slots| && pos < |slots[k]|
  {
    var last := |slots[k]| - 1;
    var moved := slots[k][last];
    assert At(slots, meta, k, last);
    (if pos != last then meta[moved := meta[moved].(pos := pos)] else meta) - {slots[k][pos]}
  }

  lemma RemoveKeeps(slots: seq<seq<nat>>, meta: map<nat, Meta>, k: nat, pos: nat)
    requires Indexed(slots, meta) && k < |slots| && pos < |slots[k]|
    ensures Indexed(RemoveAt(slots, k, pos), RemoveMeta(slots, meta, k, pos))
    ensures Deadlines(RemoveMeta(slots, meta, k, pos)) == Drop(Deadlines(meta), {slots[k][pos]})
    ensures RemoveMeta(slots, meta, k, pos).Keys == meta.Keys - {slots[k][pos]} && slots[k][pos] in meta
    ensures forall x :: x in RemoveMeta(slots, meta, k, pos) ==>
      RemoveMeta(slots, meta, k, pos)[x].(pos := 0) == meta[x].(pos := 0)
  {
    var s, m := RemoveAt(slots, k, pos), RemoveMeta(slots, meta, k, pos);
    var last := |slots[k]| - 1;
    assert At(slots, meta, k, last) && At(slots, meta, k, pos);
    forall i, j | 0 <= i < |s| && 0 <= j < |s[i]| ensures At(s, m, i, j) {
      assert At(slots, meta, i, j);
    }
    forall x | x in m ensures Found(s, m, x) {
      assert Found(slots, meta, x);
    }
  }

  function Ids(list: seq<nat>): set<nat> { set id | id in list }

  // Firing a whole slot.
  function Clear(slots: seq<seq<nat>>, k: nat): seq<seq<nat>>
    requires k < |slots|
  {
    slots[k := []]
  }

  lemma ClearKeeps(slots: seq<seq<nat>>, meta: map<nat, Meta>, k: nat)
    requires Indexed(slots, meta) && k < |slots|
    ensures Indexed(Clear(slots, k), meta - Ids(slots[k]))
    ensures Deadlines(meta - Ids(slots[k])) == Drop(Deadlines(meta), Ids(slots[k]))
    ensures forall id :: id in Ids(slots[k]) <==> id in meta && meta[id].slot == k
  {
    var s, m := Clear(slots, k), meta - Ids(slots[k]);
    forall id | id in slots[k] ensures id in meta && meta[id].slot == k {
      var l :| 0 <= l < |slots[k]| && slots[k][l] == id;
      assert At(slots, meta, k, l);
    }
    forall id | id in meta && meta[id].slot == k ensures id in slots[k] {
      assert Found(slots, meta, id);
    }
    forall i, j | 0 <= i < |s| && 0 <= j < |s[i]| ensures At(s, m, i, j) {
      assert At(slots, meta, i, j);
    }
    forall x | x in m ensures Found(s, m, x) {
      assert Found(slots, meta, x);
    }
  }

  // A list holds no id twice, so firing it fires as many ids as it is long.
  lemma {:induction false} IdsSize(list: seq<nat>)
    requires forall i, j :: 0 <= i < j < |list| ==> list[i] != list[j]
    ensures |Ids(list)| == |list|
  {
    if list != [] {
      var n := |list| - 1;
      IdsSize(list[..n]);
      assert Ids(list) == Ids(list[..n]) + {list[n]};
    }
  }

  lemma SlotSize(slots: seq<seq<nat>>, meta: map<nat, Meta>, k: nat)
    requires Indexed(slots, meta) && k < |slots|
    ensures |Ids(slots[k])| == |slots[k]| && Ids(slots[k]) <= meta.Keys
    ensures |meta - Ids(slots[k])| == |meta| - |slots[k]|
  {
    forall i, j | 0 <= i < j < |slots[k]| ensures slots[k][i] != slots[k][j] {
      assert At(slots, meta, k, i) && At(slots, meta, k, j);
    }
    IdsSize(slots[k]);
    forall id | id in slots[k] ensures id in meta {
      var l :| 0 <= l < |slots[k]| && slots[k][l] == id;
      assert At(slots, meta, k, l);
    }
    MinusSize(meta, Ids(slots[k]));
  }

  lemma MinusSize(meta: map<nat, Meta>, ids: set<nat>)
    requires ids <= meta.Keys
    ensures |meta - ids| == |meta| - |ids|
  {
    assert (meta - ids).Keys == meta.Keys - ids;
    assert meta.Keys == (meta.Keys - ids) + ids;
    assert |meta| == |meta.Keys| && |meta - ids| == |(meta - ids).Keys|;
  }

  // slot_push, and the metadata that place sets after it
  method SlotPush(slots: array<seq<nat>>, meta: map<nat, Meta>, k: nat, id: nat, expire: nat)
    returns (m: map<nat, Meta>)
    requires k < slots.Length
    modifies slots
    ensures slots[..] == Push(old(slots[..]), k, id)
    ensures m == PushMeta(old(slots[..]), meta, k, id, expire)
  {
    ghost var s := slots[..];
    m := meta[id := Meta(expire, k, |slots[k]|)];
    slots[k] := slots[k] + [id];
    assert slots[..] == Push(s, k, id);
  }

  // slot_remove_at, and marking the id absent
  method SlotRemoveAt(slots: array<seq<nat>>, meta: map<nat, Meta>, k: nat, pos: nat) returns (m: map<nat, Meta>)
    requires k < slots.Length && pos < |slots[k]| && Indexed(slots[..], meta)
    modifies slots
    ensures slots[..] == RemoveAt(old(slots[..]), k, pos)
    ensures m == RemoveMeta(old(slots[..]), meta, k, pos)
  {
    ghost var s := slots[..];
    m := meta;
    var list := slots[k];
    var id, last := list[pos], |list| - 1;
    assert At(s, meta, k, last);
    if pos != last {
      var moved := list[last];
      list := list[pos := moved];
      m := m[moved := m[moved].(pos := pos)];
    }
    m := m - {id};
    slots[k] := list[..last];
    assert slots[..] == RemoveAt(s, k, pos);
  }

  // The end of a tick: every id of slot k becomes absent and the slot empty.
  method SlotFire(slots: array<seq<nat>>, meta: map<nat, Meta>, k: nat) returns (m: map<nat, Meta>, fired: nat)
    requires k < slots.Length
    modifies slots
    ensures slots[..] == Clear(old(slots[..]), k)
    ensures m == meta - Ids(old(slots[k])) && fired == |old(slots[k])|
  {
    ghost var s := slots[..];
    var list := slots[k];
    fired, m := |list|, meta;
    for j := 0 to |list|
      invariant m == meta - Ids(list[..j])
    {
      assert Ids(list[..j + 1]) == Ids(list[..j]) + {list[j]};
      m := m - {list[j]};
    }
    assert list[..|list|] == list;
    slots[k] := [];
    assert slots[..] == Clear(s, k);
  }
}
