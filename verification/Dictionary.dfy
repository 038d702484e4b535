/** The growable table of wasm-build/wasm-build/sdk_port-wasi/sdk_port-wasi-dlfcn.c. */
module Dictionary {
  datatype Entry = Entry(key: string, value: int)

  /** Keys appear at most once. */
  ghost predicate DistinctKeys(es: seq<Entry>) {
    forall i, j :: 0 <= i < j < |es| ==> es[i].key != es[j].key
  }

  /** The map built by adding the entries in order; for a table, the map it stands for. */
  ghost function AsMap(es: seq<Entry>): map<string, int> {
    if es == [] then map[]
    else AsMap(es[..|es| - 1])[es[|es| - 1].key := es[|es| - 1].value]
  }

  lemma {:induction false} AsMapKeys(es: seq<Entry>)
    ensures AsMap(es).Keys == set e | e in es :: e.key
  {
    if es != [] {
      AsMapKeys(es[..|es| - 1]);
      assert es == es[..|es| - 1] + [es[|es| - 1]];
    }
  }

  lemma {:induction false} AsMapAt(es: seq<Entry>, i: nat)
    requires DistinctKeys(es) && i < |es|
    ensures es[i].key in AsMap(es) && AsMap(es)[es[i].key] == es[i].value
  {
    if i < |es| - 1 {
      AsMapAt(es[..|es| - 1], i);
    }
  }

  /** Overwriting the value at an index is a map update. */
  lemma {:induction false} AsMapOverwrite(es: seq<Entry>, i: nat, value: int)
    requires DistinctKeys(es) && i < |es|
    ensures AsMap(es[i := es[i].(value := value)]) == AsMap(es)[es[i].key := value]
  {
    var n := |es| - 1;
    var es' := es[i := es[i].(value := value)];
    if i == n {
      assert es'[..n] == es[..n];
    } else {
      AsMapOverwrite(es[..n], i, value);
      assert es'[..n] == es[..n][i := es[i].(value := value)];
    }
  }

  class Dict {
    var len: nat
    var cap: nat
    var entry: array<Entry>

    ghost predicate Valid()
      reads this, entry
    {
      && 0 < cap == entry.Length
      && len <= cap
      && DistinctKeys(entry[..len])
    }

    ghost function Contents(): map<string, int>
      requires Valid()
      reads this, entry
    {
      AsMap(entry[..len])
    }

    /** dict_new: room for ten entries, none of them used. */
    constructor ()
      ensures Valid() && fresh(entry) && cap == 10
      ensures Contents() == map[]
    {
      len, cap := 0, 10;
      entry := new Entry[10](_ => Entry("", 0));
    }

    method FindIndex(key: string) returns (idx: int)
      requires Valid()
      ensures idx == -1 <==> key !in Contents()
      ensures idx != -1 ==> 0 <= idx < len && entry[idx].key == key
    {
      AsMapKeys(entry[..len]);
      for i := 0 to len
        invariant forall j :: 0 <= j < i ==> entry[j].key != key
      {
        if entry[i].key == key {
          assert entry[..len][i].key == key;
          return i;
        }
      }
      return -1;
    }

    method Find(key: string, default: int) returns (value: int)
      requires Valid()
      ensures value == if key in Contents() then Contents()[key] else default
    {
      var idx := FindIndex(key);
      if idx == -1 {
        return default;
      }
      AsMapAt(entry[..len], idx);
      return entry[idx].value;
    }

    /** dict_add: overwrite in place, or append, doubling the table first when it is full. */
    method Add(key: string, value: int)
      requires Valid()
      modifies this, entry
      ensures Valid() && fresh({entry} - {old(entry)})
      ensures Contents() == old(Contents())[key := value]
      ensures cap == if key !in old(Contents()) && old(len == cap) then 2 * old(cap) else old(cap)
      ensures len == if key in old(Contents()) then old(len) else old(len) + 1
    {
      var idx := FindIndex(key);
      if idx != -1 {
        Overwrite(idx, value);
        return;
      }
      ghost var es := entry[..len];
      if len == cap {
        Grow();
      }
      assert entry[..len] == es;
      Append(key, value);
    }

    /** Line 39: the value at an index. */
    method Overwrite(idx: nat, value: int)
      requires Valid() && idx < len
      modifies entry
      ensures Valid() && Contents() == old(Contents())[old(entry[idx].key) := value]
    {
      ghost var es := entry[..len];
      AsMapOverwrite(es, idx, value);
      entry[idx] := Entry(entry[idx].key, value);
      assert entry[..len] == es[idx := es[idx].(value := value)];
    }

    /** Lines 46 to 48: a new key in a table with room. */
    method Append(key: string, value: int)
      requires Valid() && len < cap && key !in Contents()
      modifies this`len, entry
      ensures Valid() && len == old(len) + 1 && Contents() == old(Contents())[key := value]
    {
      ghost var es := entry[..len];
      AsMapKeys(es);
      entry[len] := Entry(key, value);
      len := len + 1;
      assert entry[..len] == es + [Entry(key, value)];
      assert (es + [Entry(key, value)])[..|es|] == es;
    }

    /** The reallocation: twice the room, every entry kept at its index. */
    method Grow()
      requires Valid()
      modifies this`cap, this`entry
      ensures cap == 2 * old(cap) == entry.Length && fresh(entry)
      ensures entry[..len] == old(entry[..len])
    {
      var bigger := new Entry[cap * 2](_ => Entry("", 0));
      for i := 0 to len
        invariant Valid() && cap == old(cap) && entry == old(entry) && fresh(bigger) && entry[..] == old(entry[..])
        invariant forall j :: 0 <= j < i ==> bigger[j] == entry[j]
      {
        bigger[i] := entry[i];
      }
      cap, entry := cap * 2, bigger;
    }
  }

  /** Runs a list of additions on a new dictionary, as the loader does when it registers symbols. */
  method AddAll(adds: seq<Entry>) returns (d: Dict)
    ensures d.Valid() && fresh(d) && fresh(d.entry)
    ensures d.Contents() == AsMap(adds)
  {
    d := new Dict();
    for i := 0 to |adds|
      invariant d.Valid() && fresh(d) && fresh(d.entry)
      invariant d.Contents() == AsMap(adds[..i])
    {
      d.Add(adds[i].key, adds[i].value);
      assert adds[..i + 1][..i] == adds[..i];
    }
    assert adds[..|adds|] == adds;
  }

  /** The value added for a key and not overwritten later is the one that the map holds. */
  lemma {:induction false} LastValue(adds: seq<Entry>, i: nat)
    requires i < |adds| && forall j :: i < j < |adds| ==> adds[j].key != adds[i].key
    ensures adds[i].key in AsMap(adds) && AsMap(adds)[adds[i].key] == adds[i].value
  {
    if i < |adds| - 1 {
      LastValue(adds[..|adds| - 1], i);
    }
  }

  /** A look-up after any list of additions sees the last value added for the key, or the default. */
  lemma LastAddWins(adds: seq<Entry>, key: string)
    ensures key in AsMap(adds) <==> exists i :: 0 <= i < |adds| && adds[i].key == key
    ensures forall i :: 0 <= i < |adds| && adds[i].key == key && (forall j :: i < j < |adds| ==> adds[j].key != key)
              ==> key in AsMap(adds) && AsMap(adds)[key] == adds[i].value
  {
    AsMapKeys(adds);
    forall i | 0 <= i < |adds| && adds[i].key == key && forall j :: i < j < |adds| ==> adds[j].key != key
      ensures key in AsMap(adds) && AsMap(adds)[key] == adds[i].value
    {
      LastValue(adds, i);
    }
  }
}
