/** The table the shell keeps its own variables in: 64 entries, each free or the
    text NAME=value, searched from the first one. Its operations are those of
    `Variables`, the refusal when it is full included.
 */
module VariableTable {
  import opened Common
  import opened Variables

  /** A variable's name has no '=' in it */
  predicate Plain(name: string) {
    '=' !in name
  }

  function EntryText(name: string, value: string): string {
    name + "=" + value
  }

  /** The text of an entry tells its name */
  lemma EntryName(name: string, value: string, other: string)
    requires Plain(name) && Plain(other)
    ensures other + "=" <= EntryText(name, value) <==> other == name
  {
    var text := EntryText(name, value);
    assert text[|name|] == '=' && text[..|name|] == name;
    if other + "=" <= text {
      assert text[|other|] == '=' && text[..|other|] == other;
    }
  }

  function Numbers(n: nat): (s: set<nat>)
    ensures |s| == n
    ensures forall i :: i in s <==> 0 <= i < n
  {
    if n == 0 then {} else Numbers(n - 1) + {n - 1}
  }

  /** The entries in use */
  function Used(entries: seq<Option<string>>): set<nat> {
    set i: nat | i < |entries| && entries[i].Some?
  }

  /** A map that gives different keys different numbers has as many keys as
      numbers */
  lemma {:induction false} InjectiveSize(m: map<string, nat>, image: set<nat>)
    requires forall a, b | a in m && b in m && a != b :: m[a] != m[b]
    requires forall a | a in m :: m[a] in image
    requires forall i | i in image :: exists a :: a in m && m[a] == i
    ensures |m| == |image|
  {
    if |m| == 0 {
      assert image == {};
    } else {
      var a :| a in m;
      var smaller := m - {a};
      assert smaller.Keys == m.Keys - {a};
      assert |smaller| == |m| - 1;
      forall i | i in image - {m[a]}
        ensures exists b :: b in smaller && smaller[b] == i
      {
        var b :| b in m && m[b] == i;
        assert b in smaller && smaller[b] == i;
      }
      InjectiveSize(smaller, image - {m[a]});
    }
  }

  lemma AllUsed(entries: seq<Option<string>>)
    ensures |Used(entries)| <= |entries|
    ensures |Used(entries)| == |entries| <==> forall i: nat | i < |entries| :: entries[i].Some?
  {
    var used, all := Used(entries), Numbers(|entries|);
    SubsetSize(used, all);
    if |used| == |all| {
      SameSize(used, all);
      forall i: nat | i < |entries|
        ensures entries[i].Some?
      {
        assert i in all;
      }
    }
    if forall i: nat | i < |entries| :: entries[i].Some? {
      assert used == all;
    }
  }

  class Table {
    const entries: array<Option<string>>
    var environment: map<string, string>
    ghost var own: map<string, string>
    /** Where each variable's entry is */
    ghost var slot: map<string, nat>

    ghost predicate Valid()
      reads this, entries
    {
      && entries.Length == MAX_VARIABLES
      && slot.Keys == own.Keys
      && (forall n | n in own :: Plain(n) && slot[n] < MAX_VARIABLES && entries[slot[n]] == Some(EntryText(n, own[n])))
      && (forall i: nat | i < MAX_VARIABLES && entries[i].Some? :: exists n :: n in slot && slot[n] == i)
    }

    ghost function View(): Vars
      reads this
    {
      Vars(own, environment)
    }

    constructor (environment: map<string, string>)
      ensures Valid() && fresh(entries) && View() == Vars(map[], environment)
    {
      entries := new Option<string>[MAX_VARIABLES](_ => None);
      this.environment, own, slot := environment, map[], map[];
    }

    lemma DistinctSlots()
      requires Valid()
      ensures forall a, b | a in slot && b in slot && a != b :: slot[a] != slot[b]
    {
      forall a, b | a in slot && b in slot && a != b
        ensures slot[a] != slot[b]
      {
        EntryName(b, own[b], a);
        EntryName(a, own[a], a);
      }
    }

    /** There are as many variables as entries in use */
    lemma TableSize()
      requires Valid()
      ensures |own| <= MAX_VARIABLES
      ensures |own| == MAX_VARIABLES <==> forall i: nat | i < MAX_VARIABLES :: entries[i].Some?
    {
      DistinctSlots();
      InjectiveSize(slot, Used(entries[..]));
      assert |own| == |own.Keys| == |slot.Keys| == |slot|;
      AllUsed(entries[..]);
    }

    /** variable_entry: where the entry of `name` is, or None */
    method Entry(name: string) returns (r: Option<nat>)
      requires Valid() && Plain(name)
      ensures r == if name in own then Some(slot[name]) else None
    {
      for i := 0 to entries.Length
        invariant name in own ==> slot[name] >= i
      {
        if entries[i].Some? && name + "=" <= entries[i].value {
          ghost var n :| n in slot && slot[n] == i;
          EntryName(n, own[n], name);
          return Some(i);
        }
        if name in own && slot[name] == i {
          EntryName(name, own[name], name);
        }
      }
      return None;
    }

    /** The first entry not in use, or None */
    method FreeEntry() returns (r: Option<nat>)
      requires Valid()
      ensures r.Some? ==> r.value < MAX_VARIABLES && entries[r.value].None?
      ensures r.Some? <==> |own| < MAX_VARIABLES
    {
      TableSize();
      for i := 0 to entries.Length
        invariant forall k: nat | k < i :: entries[k].Some?
      {
        if entries[i].None? {
          return Some(i);
        }
      }
      return None;
    }

    /** get_variable */
    method Get(name: string) returns (r: Option<string>)
      requires Valid() && Plain(name)
      ensures r == View().Get(name)
    {
      var entry := Entry(name);
      if entry.Some? {
        var text := entries[entry.value].value;
        assert text == EntryText(name, own[name]);
        return Some(text[|name| + 1..]);
      }
      return if name in environment then Some(environment[name]) else None;
    }

    method PutEntry(i: nat, name: string, value: string)
      requires Valid() && Plain(name) && i < MAX_VARIABLES
      requires if name in own then i == slot[name] else entries[i].None?
      modifies this`own, this`slot, entries
      ensures Valid() && own == old(own)[name := value]
    {
      entries[i] := Some(EntryText(name, value));
      own, slot := own[name := value], slot[name := i];
      forall n | n in own
        ensures entries[slot[n]] == Some(EntryText(n, own[n]))
      {
        if n != name && slot[n] == i {
          assert old(entries[i]) == Some(EntryText(n, own[n]));
          if name in old(own) {
            EntryName(n, own[n], name);
          }
          assert false;
        }
      }
      forall k: nat | k < MAX_VARIABLES && entries[k].Some?
        ensures exists n :: n in slot && slot[n] == k
      {
        if k == i {
          assert name in slot && slot[name] == k;
        } else {
          var n :| n in old(slot) && old(slot)[n] == k;
          assert n in slot && slot[n] == k;
        }
      }
    }

    method ClearEntry(name: string)
      requires Valid() && name in own
      modifies this`own, this`slot, entries
      ensures Valid() && own == old(own) - {name}
    {
      var entry := Entry(name);
      entries[entry.value] := None;
      own, slot := own - {name}, slot - {name};
      forall n | n in own
        ensures entries[slot[n]] == Some(EntryText(n, own[n]))
      {
        if slot[n] == entry.value {
          EntryName(n, own[n], name);
          assert false;
        }
      }
      forall k: nat | k < MAX_VARIABLES && entries[k].Some?
        ensures exists n :: n in slot && slot[n] == k
      {
        var n :| n in old(slot) && old(slot)[n] == k;
        assert n in slot && slot[n] == k;
      }
    }

    /** set_variable */
    method Set(name: string, value: string) returns (ok: bool)
      requires Valid() && Plain(name)
      modifies this, entries
      ensures Valid()
      ensures ok == old(View()).Set(name, value).Some? && View() == old(View()).TrySet(name, value)
    {
      if name in environment {
        environment := environment[name := value];
        return true;
      }
      var entry := Entry(name);
      if entry.None? {
        entry := FreeEntry();
      }
      if entry.None? {
        return false;
      }
      PutEntry(entry.value, name, value);
      return true;
    }

    /** unset_variable */
    method Unset(name: string)
      requires Valid() && Plain(name)
      modifies this, entries
      ensures Valid() && View() == old(View()).Unset(name)
    {
      var entry := Entry(name);
      if entry.Some? {
        ClearEntry(name);
      }
      environment := environment - {name};
    }

    /** setenv, of a name the shell has no variable of its own for */
    method SetEnvironment(name: string, value: string)
      requires Valid() && name !in own
      modifies this`environment
      ensures Valid() && View() == old(View()).ExportAs(name, value)
    {
      environment := environment[name := value];
    }

    /** export_variable */
    method Export(name: string)
      requires Valid() && Plain(name)
      modifies this, entries
      ensures Valid() && View() == old(View()).Export(name)
    {
      var entry := Entry(name);
      if entry.Some? {
        var text := entries[entry.value].value;
        assert text == EntryText(name, own[name]);
        environment := environment[name := text[|name| + 1..]];
        ClearEntry(name);
      }
    }
  }

  lemma SameSize<T>(a: set<T>, b: set<T>)
    requires a <= b && |a| == |b|
    ensures a == b
  {
    if a != b {
      var x :| x in b && x !in a;
      SubsetSize(a, b - {x});
    }
  }
}
