/** `local`, which puts a variable back when the function that asked for it
    returns: what runs of assignments, exports and nested calls do to it.
 */
module Locals {
  import opened Common
  import opened Variables

  const MAX_LOCALS: nat := 64

  /** What a variable was when a function made it its own */
  datatype Saved = Saved(name: string, was: Binding)

  /** The variables, and the stack of what `local` saved */
  datatype State = State(vars: Vars, saved: seq<Saved>)

  /** One entry put back: forgotten first, then what it was, if there is room */
  function PutBack(v: Vars, entry: Saved): Vars {
    var cleared := v.Unset(entry.name);
    match entry.was
    case Nothing => cleared
    case Own(value) => cleared.TrySet(entry.name, value)
    case Exported(value) => cleared.ExportAs(entry.name, value)
  }

  /** restore_locals: the entries from `mark` on, the newest first */
  function Restore(v: Vars, saved: seq<Saved>, mark: nat): Vars
    decreases |saved|
  {
    if |saved| <= mark then v
    else Restore(PutBack(v, saved[|saved| - 1]), saved[..|saved| - 1], mark)
  }

  /** local NAME[=value]: status 1 and nothing done with no room to remember; the
      value given may still find no room in the table */
  function Local(s: State, name: string, value: Option<string>): State {
    if |s.saved| >= MAX_LOCALS then s
    else
      var remembered := s.(saved := s.saved + [Saved(name, s.vars.At(name))]);
      if value.None? then remembered else remembered.(vars := s.vars.TrySet(name, value.value))
  }

  // ----- Runs -----

  datatype Op =
    | Assign(name: string, value: string)
    | ExportName(name: string)
    | ExportValue(name: string, value: string)
    | Forget(name: string)
    | MakeLocal(name: string, initial: Option<string>)
    | Call(body: Script)

  datatype Script = Stop | Do(op: Op, rest: Script)

  /** One command; `local` only in a function */
  function Perform(op: Op, s: State, inside: bool): State
    decreases op, 1
  {
    match op
    case Assign(name, value) => s.(vars := s.vars.TrySet(name, value))
    case ExportName(name) => s.(vars := s.vars.Export(name))
    case ExportValue(name, value) => s.(vars := s.vars.ExportAs(name, value))
    case Forget(name) => s.(vars := s.vars.Unset(name))
    case MakeLocal(name, value) => if inside then Local(s, name, value) else s
    case Call(body) =>
      var r := Run(body, s, true);
      State(Restore(r.vars, r.saved, |s.saved|), r.saved[..Min(|s.saved|, |r.saved|)])
  }

  function Min(a: nat, b: nat): nat { if a <= b then a else b }

  function Run(script: Script, s: State, inside: bool): State
    decreases script, 0
  {
    match script
    case Stop => s
    case Do(op, rest) => Run(rest, Perform(op, s, inside), inside)
  }

  /** What a name is after it is given a value: exported if it was, and nothing if there is no
      room for a new one */
  function Given(v: Vars, name: string, value: string): Binding {
    match v.At(name)
    case Exported(_) => Exported(value)
    case Own(_) => Own(value)
    case Nothing => if |v.own| < 64 then Own(value) else Nothing
  }

  lemma GivenIs(v: Vars, name: string, value: string)
    requires v.Valid()
    ensures v.TrySet(name, value).At(name) == Given(v, name, value)
  {
  }

  /** What each command does to a name, and that it does nothing to the others */
  lemma PerformIs(op: Op, s: State, inside: bool, other: string)
    requires s.vars.Valid() && !op.Call?
    ensures var r := Perform(op, s, inside);
            && (other != op.name ==> r.vars.At(other) == s.vars.At(other))
            && (match op
                case Assign(name, value) => r.vars.At(name) == Given(s.vars, name, value) && r.saved == s.saved
                case ExportValue(name, value) => r.vars.At(name) == Exported(value) && r.saved == s.saved
                case Forget(name) => r.vars.At(name) == Nothing && r.saved == s.saved
                case ExportName(name) =>
                  && r.saved == s.saved
                  && var was := s.vars.At(name); r.vars.At(name) == if was.Own? then Exported(was.value) else was
                case MakeLocal(name, value) =>
                  if !inside || |s.saved| >= 64 then r == s
                  else && r.saved == s.saved + [Saved(name, s.vars.At(name))]
                       && r.vars.At(name) == if value.Some? then Given(s.vars, name, value.value) else s.vars.At(name))
  {
    hide Vars.Set, Vars.Get, Vars.TrySet, Given;
    var value :=
      match op
      case Assign(_, v) => v
      case ExportValue(_, v) => v
      case MakeLocal(_, v) => if v.Some? then v.value else ""
      case _ => "";
    OperationsKeepOnePlace(s.vars, op.name, value);
    GivenIs(s.vars, op.name, value);
  }

  lemma PutBackAt(v: Vars, entry: Saved)
    requires v.Valid()
    ensures PutBack(v, entry).Valid()
    ensures forall other | other != entry.name :: PutBack(v, entry).At(other) == v.At(other)
    ensures PutBack(v, entry).At(entry.name)
         == if entry.was.Own? && |v.own - {entry.name}| >= MAX_VARIABLES then Nothing else entry.was
  {
    var cleared := v.Unset(entry.name);
    var value := if entry.was.Nothing? then "" else entry.was.value;
    OperationsKeepOnePlace(v, entry.name, value);
    OperationsKeepOnePlace(cleared, entry.name, value);
  }

  lemma {:induction false} RestoreValid(v: Vars, saved: seq<Saved>, mark: nat)
    requires v.Valid()
    ensures Restore(v, saved, mark).Valid()
    decreases |saved|
  {
    if |saved| > mark {
      PutBackAt(v, saved[|saved| - 1]);
      RestoreValid(PutBack(v, saved[|saved| - 1]), saved[..|saved| - 1], mark);
    }
  }

  /** Over every run, nested calls included, a name is never both a shell variable
      and in the environment, and the stack only grows within a call */
  lemma {:induction false} RunsKeepOnePlace(script: Script, s: State, inside: bool)
    requires s.vars.Valid()
    ensures Run(script, s, inside).vars.Valid()
    ensures s.saved <= Run(script, s, inside).saved
    decreases script, 0
  {
    if script.Do? {
      OpKeepsOnePlace(script.op, s, inside);
      RunsKeepOnePlace(script.rest, Perform(script.op, s, inside), inside);
    }
  }

  lemma {:induction false} OpKeepsOnePlace(op: Op, s: State, inside: bool)
    requires s.vars.Valid()
    ensures Perform(op, s, inside).vars.Valid()
    ensures s.saved <= Perform(op, s, inside).saved
    ensures op.Call? ==> Perform(op, s, inside).saved == s.saved
    decreases op, 1
  {
    hide Run, Restore, Vars.Valid, Vars.At, Vars.Get, Vars.Set, Vars.TrySet, Vars.Unset, Vars.Export, Vars.ExportAs;
    match op
    case Assign(name, value) => OperationsKeepOnePlace(s.vars, name, value);
    case ExportName(name) => OperationsKeepOnePlace(s.vars, name, "");
    case ExportValue(name, value) => OperationsKeepOnePlace(s.vars, name, value);
    case Forget(name) => OperationsKeepOnePlace(s.vars, name, "");
    case MakeLocal(name, value) => OperationsKeepOnePlace(s.vars, name, if value.Some? then value.value else "");
    case Call(body) =>
      RunsKeepOnePlace(body, s, true);
      var r := Run(body, s, true);
      RestoreValid(r.vars, r.saved, |s.saved|);
  }

  // ----- What a call puts back -----

  /** The oldest entry for a name: what it was when the function first made it
      local */
  function Oldest(entries: seq<Saved>, name: string): Option<Binding> {
    if entries == [] then None
    else if entries[0].name == name then Some(entries[0].was)
    else Oldest(entries[1..], name)
  }

  lemma {:induction false} OldestAppend(entries: seq<Saved>, entry: Saved, name: string)
    ensures Oldest(entries + [entry], name)
         == if Oldest(entries, name).Some? then Oldest(entries, name)
            else if entry.name == name then Some(entry.was)
            else None
  {
    if entries != [] {
      assert (entries + [entry])[1..] == entries[1..] + [entry];
      OldestAppend(entries[1..], entry, name);
    }
  }

  lemma OldestWith(saved: seq<Saved>, mark: nat, name: string)
    requires mark < |saved|
    ensures var entry, older := saved[|saved| - 1], Oldest(saved[..|saved| - 1][mark..], name);
            Oldest(saved[mark..], name) ==
              if older.Some? then older else if entry.name == name then Some(entry.was) else None
  {
    hide Oldest;
    var entry, older := saved[|saved| - 1], saved[..|saved| - 1];
    assert saved[mark..] == older[mark..] + [entry];
    OldestAppend(older[mark..], entry, name);
  }

  /** What each name was just before the first `local` of it that took effect,
      among the commands of a function's body (not those of the functions it calls) */
  function Snapshots(body: Script, s: State, taken: map<string, Binding>): map<string, Binding> {
    match body
    case Stop => taken
    case Do(op, rest) =>
      var more :=
        if op.MakeLocal? && |s.saved| < MAX_LOCALS && op.name !in taken then taken[op.name := s.vars.At(op.name)]
        else taken;
      Snapshots(rest, Perform(op, s, true), more)
  }

  ghost predicate SameOldest(entries: seq<Saved>, taken: map<string, Binding>) {
    forall name :: Oldest(entries, name) == if name in taken then Some(taken[name]) else None
  }

  /** The stack of a call holds, for each name, what it was before its first
      `local` */
  lemma {:induction false} StackHoldsSnapshots(body: Script, s: State, mark: nat, taken: map<string, Binding>)
    requires s.vars.Valid() && mark <= |s.saved| && SameOldest(s.saved[mark..], taken)
    ensures mark <= |Run(body, s, true).saved|
    ensures SameOldest(Run(body, s, true).saved[mark..], Snapshots(body, s, taken))
    decreases body
  {
    if body.Do? {
      var op, s' := body.op, Perform(body.op, s, true);
      OpKeepsOnePlace(op, s, true);
      if op.MakeLocal? && |s.saved| < MAX_LOCALS {
        var entry := Saved(op.name, s.vars.At(op.name));
        assert s'.saved[mark..] == s.saved[mark..] + [entry];
        forall name {
          OldestAppend(s.saved[mark..], entry, name);
        }
        StackHoldsSnapshots(body.rest, s', mark, if op.name in taken then taken else taken[op.name := entry.was]);
      } else {
        StackHoldsSnapshots(body.rest, s', mark, taken);
      }
    }
  }

  /** No variable of the shell's own finds the table full when it is put back for
      the last time */
  predicate Fits(v: Vars, saved: seq<Saved>, mark: nat)
    decreases |saved|
  {
    if |saved| <= mark then true
    else
      var entry, older := saved[|saved| - 1], saved[..|saved| - 1];
      && (entry.was.Own? && Oldest(older[mark..], entry.name).None? ==> |v.own - {entry.name}| < MAX_VARIABLES)
      && Fits(PutBack(v, entry), older, mark)
  }

  /** What a name should be after the entries from `mark` on are put back */
  function Wanted(v: Vars, saved: seq<Saved>, mark: nat, name: string): Binding
    requires mark <= |saved|
  {
    var oldest := Oldest(saved[mark..], name);
    if oldest.Some? then oldest.value else v.At(name)
  }

  lemma {:induction false} RestoreStep(v: Vars, saved: seq<Saved>, mark: nat, name: string)
    requires v.Valid() && mark < |saved|
    ensures var entry, older := saved[|saved| - 1], saved[..|saved| - 1];
            && PutBack(v, entry).Valid()
            && (Oldest(older[mark..], name).Some? ==>
                Wanted(PutBack(v, entry), older, mark, name) == Wanted(v, saved, mark, name))
            && (entry.name != name ==> Wanted(PutBack(v, entry), older, mark, name) == Wanted(v, saved, mark, name))
            && (entry.name == name && Oldest(older[mark..], name).None? ==>
                  && Wanted(v, saved, mark, name) == entry.was
                  && Wanted(PutBack(v, entry), older, mark, name) == PutBack(v, entry).At(name))
  {
    hide Oldest, PutBack;
    OldestWith(saved, mark, name);
    PutBackAt(v, saved[|saved| - 1]);
  }

  /** Every name is what it should be, if nothing found the table full */
  lemma {:induction false} RestoreRestores(v: Vars, saved: seq<Saved>, mark: nat, name: string)
    requires v.Valid() && mark <= |saved| && Fits(v, saved, mark)
    ensures Restore(v, saved, mark).At(name) == Wanted(v, saved, mark, name)
    decreases |saved|
  {
    if |saved| > mark {
      var entry, older := saved[|saved| - 1], saved[..|saved| - 1];
      RestoreStep(v, saved, mark, name);
      PutBackAt(v, entry);
      RestoreRestores(PutBack(v, entry), older, mark, name);
    }
  }

  /** The newest entry first */
  lemma NewestFirst(v: Vars, saved: seq<Saved>, mark: nat)
    requires mark < |saved|
    ensures var entry, older := saved[|saved| - 1], saved[..|saved| - 1];
            && Restore(v, saved, mark) == Restore(PutBack(v, entry), older, mark)
            && (Fits(v, saved, mark) <==>
                  && Fits(PutBack(v, entry), older, mark)
                  && (entry.was.Own? && Oldest(older[mark..], entry.name).None? ==>
                      |v.own - {entry.name}| < MAX_VARIABLES))
  {
    hide PutBack, Oldest;
  }

  /** And only then: a variable that found the table full is gone */
  lemma {:induction false} FullTableLosesOne(v: Vars, saved: seq<Saved>, mark: nat) returns (name: string)
    requires v.Valid() && mark <= |saved| && !Fits(v, saved, mark)
    ensures Oldest(saved[mark..], name).Some? && Oldest(saved[mark..], name).value.Own?
    ensures Restore(v, saved, mark).At(name) == Nothing
    decreases |saved|
  {
    hide PutBack, Oldest, Vars.At, Vars.Valid, Restore, Fits;
    NothingToFit(v, saved, mark);
    var entry, older := saved[|saved| - 1], saved[..|saved| - 1];
    NewestFirst(v, saved, mark);
    PutBackAt(v, entry);
    if !Fits(PutBack(v, entry), older, mark) {
      name := FullTableLosesOne(PutBack(v, entry), older, mark);
    } else {
      name := entry.name;
      RestoreRestores(PutBack(v, entry), older, mark, name);
    }
    OldestWith(saved, mark, name);
  }

  lemma NothingToFit(v: Vars, saved: seq<Saved>, mark: nat)
    ensures |saved| <= mark ==> Fits(v, saved, mark)
  {
  }

  /** When a function returns, each name it made local has the value and the export
      state it had just before that call's first `local` of it, and every other name
      is as the body left it; this holds exactly when no own variable put back finds
      the table full. */
  lemma CallPutsBackLocals(body: Script, s: State, inside: bool)
    requires s.vars.Valid()
    ensures var r := Run(body, s, true);
            var after := Perform(Call(body), s, inside).vars;
            var snapshots := Snapshots(body, s, map[]);
            (forall name :: after.At(name) == if name in snapshots then snapshots[name] else r.vars.At(name))
            <==> Fits(r.vars, r.saved, |s.saved|)
  {
    hide Run, Snapshots, Fits, Restore, Oldest, Vars.Valid;
    var r, mark := Run(body, s, true), |s.saved|;
    var snapshots := Snapshots(body, s, map[]);
    RunsKeepOnePlace(body, s, true);
    NothingYet(s.saved);
    StackHoldsSnapshots(body, s, mark, map[]);
    var after := Restore(r.vars, r.saved, mark);
    assert Perform(Call(body), s, inside).vars == after;
    if Fits(r.vars, r.saved, mark) {
      forall name
        ensures after.At(name) == if name in snapshots then snapshots[name] else r.vars.At(name)
      {
        RestoreRestores(r.vars, r.saved, mark, name);
      }
    } else {
      var name := FullTableLosesOne(r.vars, r.saved, mark);
      assert name in snapshots && snapshots[name].Own? && after.At(name) == Nothing;
    }
  }

  lemma NothingYet(saved: seq<Saved>)
    ensures SameOldest(saved[|saved|..], map[])
  {
    assert saved[|saved|..] == [];
  }

  // ----- A table that is full -----

  /** local x; unset x; y=value */
  function UnsetAndReplace(x: string, y: string, value: string): Script {
    Do(MakeLocal(x, None), Do(Forget(x), Do(Assign(y, value), Stop)))
  }

  /** With the table full, a function that makes one of its variables local, unsets it
      and sets a new one, returns with its old variable gone */
  lemma FullTableLosesLocal(s: State, x: string, y: string, value: string, inside: bool)
    requires s.vars.Valid() && x in s.vars.own && |s.vars.own| == MAX_VARIABLES && s.vars.At(y) == Nothing
    requires |s.saved| < MAX_LOCALS
    ensures var body := UnsetAndReplace(x, y, value);
            && Snapshots(body, s, map[]) == map[x := Own(s.vars.own[x])]
            && Perform(Call(body), s, inside).vars.At(x) == Nothing
            && !Fits(Run(body, s, true).vars, Run(body, s, true).saved, |s.saved|)
  {
    var v, mark := s.vars, |s.saved|;
    var saved := s.saved + [Saved(x, Own(v.own[x]))];
    var less := v.Unset(x);
    RemovedSize(v.own, x);
    AddedSize(less.own, y, value);
    var full := less.(own := less.own[y := value]);
    assert less.TrySet(y, value) == full;
    var body := UnsetAndReplace(x, y, value);
    var s1, s2, s3 := State(v, saved), State(less, saved), State(full, saved);
    assert Perform(body.op, s, true) == s1 && Perform(body.rest.op, s1, true) == s2
      && Perform(body.rest.rest.op, s2, true) == s3;
    ThreeSteps(body, s, s1, s2, s3);
    Replaced(s, x, full, saved);
  }

  lemma ThreeSteps(body: Script, s: State, s1: State, s2: State, s3: State)
    requires body.Do? && body.rest.Do? && body.rest.rest.Do? && body.rest.rest.rest.Stop?
    requires body.op.MakeLocal? && !body.rest.op.MakeLocal? && !body.rest.rest.op.MakeLocal? && |s.saved| < MAX_LOCALS
    requires Perform(body.op, s, true) == s1 && Perform(body.rest.op, s1, true) == s2
    requires Perform(body.rest.rest.op, s2, true) == s3
    ensures Run(body, s, true) == s3
    ensures Snapshots(body, s, map[]) == map[body.op.name := s.vars.At(body.op.name)]
  {
    hide Perform;
    var taken := map[body.op.name := s.vars.At(body.op.name)];
    assert Run(body.rest.rest, s2, true) == s3;
    assert Run(body.rest, s1, true) == s3;
    assert Snapshots(body.rest.rest, s2, taken) == taken;
    assert Snapshots(body.rest, s1, taken) == taken;
  }

  lemma RemovedSize(m: map<string, string>, name: string)
    requires name in m
    ensures |m - {name}| == |m| - 1
  {
    assert (m - {name}).Keys == m.Keys - {name};
  }

  lemma Replaced(s: State, x: string, full: Vars, saved: seq<Saved>)
    requires x in s.vars.own && saved == s.saved + [Saved(x, Own(s.vars.own[x]))]
    requires x !in full.own && x !in full.exported && |full.own| == MAX_VARIABLES
    ensures Restore(full, saved, |s.saved|).At(x) == Nothing && !Fits(full, saved, |s.saved|)
  {
    var entry := saved[|saved| - 1];
    assert saved[..|saved| - 1] == s.saved;
    assert full.own - {x} == full.own && full.exported - {x} == full.exported;
    assert PutBack(full, entry) == full;
    assert s.saved[|s.saved|..] == [];
  }

  /** Two letters, for numbers below 64 */
  function TwoLetters(n: nat): string
    requires n < 64
  {
    ['a' + (n / 8) as char, 'a' + (n % 8) as char]
  }

  function IndexOf(name: string): int {
    if |name| == 2 then 8 * (name[0] as int - 'a' as int) + (name[1] as int - 'a' as int) else 0
  }

  lemma IndexOfName(n: nat)
    requires n < 64
    ensures IndexOf(TwoLetters(n)) == n
  {
  }

  /** So many variables */
  function SoMany(n: nat): (m: map<string, string>)
    requires n <= 64
    ensures |m| == n && forall name | name in m :: |name| == 2 && IndexOf(name) < n
  {
    if n == 0 then map[]
    else
      IndexOfName(n - 1);
      AddedSize(SoMany(n - 1), TwoLetters(n - 1), "");
      SoMany(n - 1)[TwoLetters(n - 1) := ""]
  }

  /** Such a state: 64 variables, of which aa is local, unset and replaced by b */
  lemma LocalIsLost()
    ensures var s := State(Vars(SoMany(64), map[]), []);
            && s.vars.Valid() && s.vars.At("aa") == Own("")
            && Perform(Call(UnsetAndReplace("aa", "b", "1")), s, false).vars.At("aa") == Nothing
  {
    var s := State(Vars(SoMany(64), map[]), []);
    FirstIsThere(64);
    assert TwoLetters(0) == "aa";
    assert "b" !in s.vars.own;
    FullTableLosesLocal(s, "aa", "b", "1", false);
  }

  lemma {:induction false} FirstIsThere(n: nat)
    requires 1 <= n <= 64
    ensures TwoLetters(0) in SoMany(n) && SoMany(n)[TwoLetters(0)] == ""
  {
    hide TwoLetters;
    if n > 1 {
      FirstIsThere(n - 1);
    }
  }

  /** The names put back as the shell's own */
  function OwnNames(entries: seq<Saved>): set<string> {
    set i | 0 <= i < |entries| && entries[i].was.Own? :: entries[i].name
  }

  /** It is enough that the variables there are and those put back fit together */
  lemma {:induction false} RoomForAllFits(v: Vars, saved: seq<Saved>, mark: nat)
    requires v.Valid() && mark <= |saved|
    requires |v.own.Keys + OwnNames(saved[mark..])| <= MAX_VARIABLES
    ensures Fits(v, saved, mark)
    decreases |saved|
  {
    if |saved| > mark {
      var entry, older := saved[|saved| - 1], saved[..|saved| - 1];
      var all := v.own.Keys + OwnNames(saved[mark..]);
      PutBackAt(v, entry);
      OwnNamesSplit(saved, mark);
      var next := PutBack(v, entry);
      assert next.own.Keys <= v.own.Keys + (if entry.was.Own? then {entry.name} else {});
      SubsetSize(next.own.Keys + OwnNames(older[mark..]), all);
      if entry.was.Own? {
        assert (v.own - {entry.name}).Keys <= all - {entry.name};
        SubsetSize((v.own - {entry.name}).Keys, all - {entry.name});
      }
      RoomForAllFits(next, older, mark);
    }
  }

  lemma OwnNamesSplit(saved: seq<Saved>, mark: nat)
    requires mark < |saved|
    ensures var entry, older := saved[|saved| - 1], saved[..|saved| - 1];
            OwnNames(saved[mark..]) == OwnNames(older[mark..]) + (if entry.was.Own? then {entry.name} else {})
  {
    var entry, older := saved[|saved| - 1], saved[..|saved| - 1];
    var all, rest := saved[mark..], older[mark..];
    assert all == rest + [entry];
    forall name | name in OwnNames(rest)
      ensures name in OwnNames(all)
    {
      var i :| 0 <= i < |rest| && rest[i].was.Own? && rest[i].name == name;
      assert all[i] == rest[i];
    }
    if entry.was.Own? {
      assert all[|all| - 1] == entry;
    }
  }
}
