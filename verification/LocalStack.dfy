/** The stack of saved variables as the shell keeps it: an array with a count,
    pushed by `local` and popped when a function returns.
 */
module LocalStack {
  import opened Common
  import opened Variables
  import opened Locals
  import opened VariableTable

  class Stack {
    const table: Table
    const saved: array<Saved>
    var count: nat

    ghost predicate Valid()
      reads this, table, table.entries, saved
    {
      && saved.Length == MAX_LOCALS && count <= MAX_LOCALS
      && table.Valid() && table.View().Valid()
      && forall i | 0 <= i < count :: Plain(saved[i].name)
    }

    ghost function View(): State
      reads this, table, saved
      requires count <= saved.Length
    {
      State(table.View(), saved[..count])
    }

    constructor (table: Table)
      requires table.Valid() && table.View().Valid()
      ensures Valid() && this.table == table && fresh(saved) && View() == State(table.View(), [])
    {
      this.table, count := table, 0;
      saved := new Saved[MAX_LOCALS](_ => Saved("", Nothing));
    }

    /** What `name` is now, as local_builtin notes it */
    method Note(name: string) returns (was: Binding)
      requires Valid() && Plain(name)
      ensures was == table.View().At(name)
    {
      var value := table.Get(name);
      var exported := name in table.environment;
      return if value.None? then Nothing else if exported then Exported(value.value) else Own(value.value);
    }

    method Push(entry: Saved)
      requires Valid() && count < MAX_LOCALS && Plain(entry.name)
      modifies this`count, saved
      ensures Valid() && count == old(count) + 1 && saved[..count] == old(saved[..count]) + [entry]
    {
      hide Table.Valid, Vars.Valid;
      saved[count] := entry;
      count := count + 1;
    }

    /** local NAME[=value], in a function */
    method LocalBuiltin(name: string, value: Option<string>) returns (status: int)
      requires Valid() && Plain(name)
      modifies this`count, saved, table, table.entries
      ensures Valid() && View() == Local(old(View()), name, value)
      ensures status ==
              if old(count) < MAX_LOCALS && (value.Some? ==> old(table.View()).Set(name, value.value).Some?)
              then 0 else 1
    {
      hide Vars.TrySet, Vars.Set, Vars.At, Vars.Get, Vars.Unset, Vars.Export, Vars.ExportAs, Table.View;
      if count >= MAX_LOCALS {
        return 1;
      }
      var was := Note(name);
      Push(Saved(name, was));
      if value.Some? {
        OperationsKeepOnePlace(table.View(), name, value.value);
        var ok := table.Set(name, value.value);
        return if ok then 0 else 1;
      }
      return 0;
    }

    /** One entry put back */
    method PutBackEntry(entry: Saved)
      requires table.Valid() && table.View().Valid() && Plain(entry.name)
      modifies table, table.entries
      ensures table.Valid() && table.View().Valid() && table.View() == PutBack(old(table.View()), entry)
    {
      PutBackAt(table.View(), entry);
      table.Unset(entry.name);
      match entry.was
      case Nothing =>
      case Exported(value) => table.SetEnvironment(entry.name, value);
      case Own(value) => var _ := table.Set(entry.name, value);
    }

    /** restore_locals */
    method RestoreLocals(mark: nat)
      requires Valid() && mark <= count
      modifies this`count, table, table.entries
      ensures Valid() && count == mark
      ensures table.View() == Restore(old(table.View()), old(saved[..count]), mark)
    {
      while count > mark
        invariant Valid() && mark <= count <= old(count) && saved[..] == old(saved[..])
        invariant Restore(table.View(), saved[..count], mark) == Restore(old(table.View()), old(saved[..count]), mark)
        decreases count
      {
        ghost var before := saved[..count];
        count := count - 1;
        assert before[..|before| - 1] == saved[..count];
        PutBackEntry(saved[count]);
      }
    }
  }
}
