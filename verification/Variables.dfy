/** The shell's variables: its own, and those in the environment */
module Variables {
  import opened Common

  const MAX_VARIABLES: nat := 64

  /** What a name stands for */
  datatype Binding = Nothing | Own(value: string) | Exported(value: string)

  datatype Vars = Vars(own: map<string, string>, exported: map<string, string>) {

    /** A name is in one place at most, and the shell's own fit their table */
    predicate Valid() {
      own.Keys !! exported.Keys && |own| <= MAX_VARIABLES
    }

    function At(name: string): Binding {
      if name in own then Own(own[name])
      else if name in exported then Exported(exported[name])
      else Nothing
    }

    /** The shell's own, else the environment's */
    function Get(name: string): Option<string> {
      if name in own then Some(own[name])
      else if name in exported then Some(exported[name])
      else None
    }

    /** In the environment if it is there, else as the shell's own; None when
        the table of the shell's own variables is full */
    function Set(name: string, value: string): Option<Vars> {
      if name in exported then Some(this.(exported := exported[name := value]))
      else if name in own || |own| < MAX_VARIABLES then Some(this.(own := own[name := value]))
      else None
    }

    /** Set, or as it was if there is no room */
    function TrySet(name: string, value: string): Vars {
      var r := Set(name, value);
      if r.Some? then r.value else this
    }

    /** Forgotten in both places */
    function Unset(name: string): Vars {
      Vars(own - {name}, exported - {name})
    }

    /** `export NAME`: the shell's own variable moves; there may be none */
    function Export(name: string): Vars {
      if name in own then Vars(own - {name}, exported[name := own[name]]) else this
    }

    /** `export NAME=value`, and putting back what was exported */
    function ExportAs(name: string, value: string): Vars {
      Vars(own - {name}, exported[name := value])
    }
  }

  // ----- One operation -----

  lemma {:induction false} SubmapSize(m: map<string, string>, names: set<string>)
    ensures |m - names| <= |m|
  {
    assert (m - names).Keys <= m.Keys;
    SubsetSize((m - names).Keys, m.Keys);
  }

  lemma {:induction false} SubsetSize<T>(a: set<T>, b: set<T>)
    requires a <= b
    ensures |a| <= |b|
  {
    if a != {} {
      var x :| x in a;
      SubsetSize(a - {x}, b - {x});
    }
  }

  lemma AddedSize(m: map<string, string>, name: string, value: string)
    ensures |m[name := value]| == if name in m then |m| else |m| + 1
  {
    assert m[name := value].Keys == m.Keys + {name};
  }

  /** Every operation keeps a name in one place, does what it says to that name,
      and nothing to any other */
  lemma OperationsKeepOnePlace(v: Vars, name: string, value: string)
    requires v.Valid()
    ensures v.TrySet(name, value).Valid() && v.Unset(name).Valid()
    ensures v.Export(name).Valid() && v.ExportAs(name, value).Valid()
    ensures v.Set(name, value).Some? ==> v.TrySet(name, value).Get(name) == Some(value)
    ensures v.Set(name, value).Some? <==> v.At(name) != Nothing || |v.own| < MAX_VARIABLES
    ensures v.Unset(name).At(name) == Nothing
    ensures v.Export(name).Get(name) == v.Get(name) && !v.Export(name).At(name).Own?
    ensures v.ExportAs(name, value).At(name) == Exported(value)
    ensures forall other | other != name ::
      v.At(other) == v.TrySet(name, value).At(other) == v.Unset(name).At(other)
        == v.Export(name).At(other) == v.ExportAs(name, value).At(other)
  {
    AddedSize(v.own, name, value);
    SubmapSize(v.own, {name});
  }
}
