/**
 * The registration pass of CommandsManager (registerMethods) as functions
 * over a registry value, and what the pass guarantees: where each alias is
 * filed, which alias wins a collision, what it never touches, and when it
 * stops part-way.
 */
module Registration {
  import opened Descriptors

  /** The manager's two tables: commands by parent, and root synopses (descs). */
  datatype Registry = Registry(commands: Tables, descs: map<string, string>)

  /**
   * A registry after a registration pass, and whether the pass ran to its
   * end (false: an ArrayIndexOutOfBoundsException left it part-way).
   */
  datatype Registration = Registration(reg: Registry, ok: bool)

  /** The root synopsis filed under a command's canonical alias. */
  function Synopsis(m: Command): (r: string)
    ensures |m.usage| == 0 ==> r == m.desc
    ensures |m.usage| > 0 ==> && |r| == |m.usage| + 3 + |m.desc|
                              && r[..|m.usage|] == m.usage
                              && r[|m.usage|..|m.usage| + 3] == " - "
                              && r[|m.usage| + 3..] == m.desc
  {
    if |m.usage| == 0 then m.desc else m.usage + " - " + m.desc
  }

  /** Tables and their keys only grow, and so do the keys of descs. */
  ghost predicate Grows(a: Registry, b: Registry)
  {
    && (forall k :: k in a.commands ==> k in b.commands && a.commands[k].Keys <= b.commands[k].Keys)
    && a.descs.Keys <= b.descs.Keys
  }

  /** The manager's invariant: well-formed tables, every synopsis under a root alias. */
  ghost predicate Consistent(reg: Registry)
  {
    && WellFormed(reg.commands)
    && forall a :: a in reg.descs ==> None in reg.commands && a in reg.commands[None]
  }

  /** The alias loop: each alias, in order, is put into the table as m. */
  function PutAliases(t: Table, aliases: seq<string>, m: Command): (r: Table)
    ensures r.Keys == t.Keys + set a | a in aliases
    ensures forall a :: a in r ==> r[a] == if a in aliases then m else t[a]
    decreases |aliases|
  {
    if aliases == [] then t else PutAliases(t[aliases[0] := m], aliases[1..], m)
  }

  /**
   * registerMethods(cls, parent): make sure the parent has a table, then
   * register the class's command methods in order.
   */
  function RegisterClass(reg: Registry, cls: Provider, parent: Parent): (r: Registration)
    ensures Grows(reg, r.reg) && parent in r.reg.commands
    decreases cls, 1
  {
    var start := if parent in reg.commands then reg
                 else reg.(commands := reg.commands[parent := map[]]);
    RegisterFrom(start, cls, 0, parent)
  }

  /** The methods of cls from index i on; a failure stops the pass. */
  function RegisterFrom(reg: Registry, cls: Provider, i: nat, parent: Parent): (r: Registration)
    requires parent in reg.commands
    ensures Grows(reg, r.reg) && parent in r.reg.commands
    decreases cls, 0, |cls.commands| - i
  {
    if i >= |cls.commands| then Registration(reg, true)
    else
      var r := RegisterCommand(reg, cls.commands[i], parent);
      if !r.ok then r else RegisterFrom(r.reg, cls, i + 1, parent)
  }

  /**
   * One command method: file its aliases under the parent; at the root,
   * list its synopsis under aliases[0] (which throws when there are no
   * aliases); if nested, register each child class under the method itself.
   */
  function RegisterCommand(reg: Registry, m: Command, parent: Parent): (r: Registration)
    requires parent in reg.commands
    ensures Grows(reg, r.reg) && parent in r.reg.commands
    decreases m, 1
  {
    var filed := FileAliases(reg, m, parent);
    if parent.None? && |m.aliases| == 0 then Registration(filed, false)
    else
      var listed := if parent.None? then ListSynopsis(filed, m) else filed;
      if m.isNested then RegisterChildren(listed, m, 0) else Registration(listed, true)
  }

  /** Lines 111-113: every alias of m filed under the parent. */
  function FileAliases(reg: Registry, m: Command, parent: Parent): (r: Registry)
    requires parent in reg.commands
    ensures Grows(reg, r) && r.descs == reg.descs
    ensures parent in r.commands && forall a :: a in m.aliases ==> a in r.commands[parent]
  {
    reg.(commands := reg.commands[parent := PutAliases(reg.commands[parent], m.aliases, m)])
  }

  /** Lines 117-123: the synopsis of a root command under its canonical alias. */
  function ListSynopsis(reg: Registry, m: Command): (r: Registry)
    requires |m.aliases| > 0 && None in reg.commands && m.aliases[0] in reg.commands[None]
    ensures Grows(reg, r) && r.commands == reg.commands && m.aliases[0] in r.descs
  {
    reg.(descs := reg.descs[m.aliases[0] := Synopsis(m)])
  }

  /** The child classes of nested m from index j on, each under Some(m). */
  function RegisterChildren(reg: Registry, m: Command, j: nat): (r: Registration)
    ensures Grows(reg, r.reg)
    decreases m, 0, |m.children| - j
  {
    if j >= |m.children| then Registration(reg, true)
    else
      var r := RegisterClass(reg, m.children[j], Some(m));
      if !r.ok then r else RegisterChildren(r.reg, m, j + 1)
  }

  // ---------------------------------------------------------------------
  // The manager's invariant

  /** Registration keeps the tables well formed and every synopsis under a root alias. */
  lemma {:induction false} ClassConsistent(reg: Registry, cls: Provider, parent: Parent)
    requires Consistent(reg)
    ensures Consistent(RegisterClass(reg, cls, parent).reg)
    decreases cls, 1
  {
    var start := if parent in reg.commands then reg
                 else reg.(commands := reg.commands[parent := map[]]);
    FromConsistent(start, cls, 0, parent);
  }

  lemma {:induction false} FromConsistent(reg: Registry, cls: Provider, i: nat, parent: Parent)
    requires parent in reg.commands && Consistent(reg)
    ensures Consistent(RegisterFrom(reg, cls, i, parent).reg)
    decreases cls, 0, |cls.commands| - i
  {
    if i < |cls.commands| {
      CommandConsistent(reg, cls.commands[i], parent);
      var r := RegisterCommand(reg, cls.commands[i], parent);
      if r.ok {
        FromConsistent(r.reg, cls, i + 1, parent);
      }
    }
  }

  lemma {:induction false} CommandConsistent(reg: Registry, m: Command, parent: Parent)
    requires parent in reg.commands && Consistent(reg)
    ensures Consistent(RegisterCommand(reg, m, parent).reg)
    decreases m, 1
  {
    var filed := FileAliases(reg, m, parent);
    FiledConsistent(reg, m, parent);
    if !(parent.None? && |m.aliases| == 0) {
      var listed := if parent.None? then ListSynopsis(filed, m) else filed;
      assert Consistent(listed);
      if m.isNested {
        ChildrenConsistent(listed, m, 0);
      }
    }
  }

  lemma FiledConsistent(reg: Registry, m: Command, parent: Parent)
    requires parent in reg.commands && Consistent(reg)
    ensures Consistent(FileAliases(reg, m, parent))
  {
    var r := FileAliases(reg, m, parent);
    forall p, a | p in r.commands && a in r.commands[p]
      ensures a in r.commands[p][a].aliases
    {
      if p != parent {
        assert r.commands[p] == reg.commands[p];
      }
    }
  }

  lemma {:induction false} ChildrenConsistent(reg: Registry, m: Command, j: nat)
    requires Consistent(reg)
    ensures Consistent(RegisterChildren(reg, m, j).reg)
    decreases m, 0, |m.children| - j
  {
    if j < |m.children| {
      ClassConsistent(reg, m.children[j], Some(m));
      var r := RegisterClass(reg, m.children[j], Some(m));
      if r.ok {
        ChildrenConsistent(r.reg, m, j + 1);
      }
    }
  }

  // ---------------------------------------------------------------------
  // Which keys a registration touches

  /** x is a nested command declared in cls, at any depth. */
  ghost predicate Inside(x: Command, cls: Provider)
    decreases cls, 1
  {
    exists i :: 0 <= i < |cls.commands| && Within(x, cls.commands[i])
  }

  /** x is m itself, when m is nested, or a nested command inside m's children. */
  ghost predicate Within(x: Command, m: Command)
    decreases m, 0
  {
    m.isNested && (x == m || exists j :: 0 <= j < |m.children| && Inside(x, m.children[j]))
  }

  lemma {:induction false} InsideIsBelow(x: Command, cls: Provider)
    ensures Inside(x, cls) ==> (cls decreases to x)
    decreases cls, 1
  {
    forall i | 0 <= i < |cls.commands|
      ensures Within(x, cls.commands[i]) ==> (cls decreases to x)
    {
      WithinIsBelow(x, cls.commands[i]);
    }
  }

  lemma {:induction false} WithinIsBelow(x: Command, m: Command)
    ensures Within(x, m) ==> x == m || (m decreases to x)
    decreases m, 0
  {
    forall j | 0 <= j < |m.children|
      ensures Inside(x, m.children[j]) ==> (m decreases to x)
    {
      InsideIsBelow(x, m.children[j]);
    }
  }

  /** A nested command is never declared inside one of its own child classes. */
  lemma NotInsideOwnChildren(m: Command, j: nat)
    requires j < |m.children|
    ensures !Inside(m, m.children[j])
  {
    InsideIsBelow(m, m.children[j]);
  }

  /** Key k has the same table, or the same absence, in both. */
  ghost predicate SameAt(a: Tables, b: Tables, k: Parent)
  {
    (k in a <==> k in b) && (k in a ==> a[k] == b[k])
  }

  /**
   * Registering cls under parent changes no table but the parent's and
   * those of the nested commands inside cls; under a nested parent it always
   * completes and leaves descs alone.
   */
  lemma {:induction false} ClassFrame(reg: Registry, cls: Provider, parent: Parent, k: Parent)
    requires k != parent && !(k.Some? && Inside(k.value, cls))
    ensures SameAt(reg.commands, RegisterClass(reg, cls, parent).reg.commands, k)
    ensures parent.Some? ==> RegisterClass(reg, cls, parent).ok
    ensures parent.Some? ==> RegisterClass(reg, cls, parent).reg.descs == reg.descs
    decreases cls, 1
  {
    var start := if parent in reg.commands then reg
                 else reg.(commands := reg.commands[parent := map[]]);
    FromFrame(start, cls, 0, parent, k);
  }

  lemma {:induction false} FromFrame(reg: Registry, cls: Provider, i: nat, parent: Parent, k: Parent)
    requires parent in reg.commands
    requires k != parent && !(k.Some? && Inside(k.value, cls))
    ensures SameAt(reg.commands, RegisterFrom(reg, cls, i, parent).reg.commands, k)
    ensures parent.Some? ==> RegisterFrom(reg, cls, i, parent).ok
    ensures parent.Some? ==> RegisterFrom(reg, cls, i, parent).reg.descs == reg.descs
    decreases cls, 0, |cls.commands| - i
  {
    if i < |cls.commands| {
      CommandFrame(reg, cls.commands[i], parent, k);
      var r := RegisterCommand(reg, cls.commands[i], parent);
      if r.ok {
        FromFrame(r.reg, cls, i + 1, parent, k);
      }
    }
  }

  lemma {:induction false} CommandFrame(reg: Registry, m: Command, parent: Parent, k: Parent)
    requires parent in reg.commands
    requires k != parent && !(k.Some? && Within(k.value, m))
    ensures SameAt(reg.commands, RegisterCommand(reg, m, parent).reg.commands, k)
    ensures parent.Some? ==> RegisterCommand(reg, m, parent).ok
    ensures parent.Some? ==> RegisterCommand(reg, m, parent).reg.descs == reg.descs
    decreases m, 1
  {
    var filed := FileAliases(reg, m, parent);
    if m.isNested && !(parent.None? && |m.aliases| == 0) {
      var listed := if parent.None? then ListSynopsis(filed, m) else filed;
      ChildrenFrame(listed, m, 0, k);
    }
  }

  lemma {:induction false} ChildrenFrame(reg: Registry, m: Command, j: nat, k: Parent)
    requires m.isNested && !(k.Some? && Within(k.value, m))
    ensures SameAt(reg.commands, RegisterChildren(reg, m, j).reg.commands, k)
    ensures RegisterChildren(reg, m, j).ok
    ensures RegisterChildren(reg, m, j).reg.descs == reg.descs
    decreases m, 0, |m.children| - j
  {
    if j < |m.children| {
      assert forall x :: Inside(x, m.children[j]) ==> Within(x, m);
      ClassFrame(reg, m.children[j], Some(m), k);
      var r := RegisterClass(reg, m.children[j], Some(m));
      ChildrenFrame(r.reg, m, j + 1, k);
    }
  }

  // ---------------------------------------------------------------------
  // What the parent's table holds afterwards

  /** The alias filing of a sequence of command methods, in order. */
  function PutCommands(t: Table, cs: seq<Command>): Table
    decreases |cs|
  {
    if cs == [] then t else PutCommands(PutAliases(t, cs[0].aliases, cs[0]), cs[1..])
  }

  /**
   * A completed registration of cls under parent leaves in the parent's
   * table exactly the aliases of cls's command methods filed in order over
   * what was there (an empty table if there was none).
   */
  lemma {:induction false} ClassTable(reg: Registry, cls: Provider, parent: Parent)
    requires !(parent.Some? && Inside(parent.value, cls))
    ensures var r := RegisterClass(reg, cls, parent);
            r.ok ==> r.reg.commands[parent] ==
                     PutCommands(if parent in reg.commands then reg.commands[parent] else map[], cls.commands)
  {
    var start := if parent in reg.commands then reg
                 else reg.(commands := reg.commands[parent := map[]]);
    FromTable(start, cls, 0, parent);
  }

  lemma {:induction false} FromTable(reg: Registry, cls: Provider, i: nat, parent: Parent)
    requires parent in reg.commands && i <= |cls.commands|
    requires !(parent.Some? && Inside(parent.value, cls))
    ensures var r := RegisterFrom(reg, cls, i, parent);
            r.ok ==> r.reg.commands[parent] == PutCommands(reg.commands[parent], cls.commands[i..])
    decreases |cls.commands| - i
  {
    if i < |cls.commands| {
      var m := cls.commands[i];
      var r := RegisterCommand(reg, m, parent);
      CommandTable(reg, m, parent);
      if r.ok {
        FromTable(r.reg, cls, i + 1, parent);
        assert cls.commands[i..][1..] == cls.commands[i + 1..];
      }
    }
  }

  lemma CommandTable(reg: Registry, m: Command, parent: Parent)
    requires parent in reg.commands
    requires !(parent.Some? && Within(parent.value, m))
    ensures RegisterCommand(reg, m, parent).reg.commands[parent]
            == PutAliases(reg.commands[parent], m.aliases, m)
  {
    var filed := FileAliases(reg, m, parent);
    if m.isNested && !(parent.None? && |m.aliases| == 0) {
      var listed := if parent.None? then ListSynopsis(filed, m) else filed;
      ChildrenFrame(listed, m, 0, parent);
    }
  }

  /**
   * The children of a nested command m are filed under m itself: after
   * registering its j-th child class under Some(m), m's table holds that
   * class's aliases filed over what it held before.
   */
  lemma ChildrenTable(reg: Registry, m: Command, j: nat)
    requires j < |m.children|
    ensures var r := RegisterClass(reg, m.children[j], Some(m));
            r.ok && r.reg.commands[Some(m)] ==
            PutCommands(if Some(m) in reg.commands then reg.commands[Some(m)] else map[], m.children[j].commands)
  {
    NotInsideOwnChildren(m, j);
    ClassTable(reg, m.children[j], Some(m));
    ClassFrame(reg, m.children[j], Some(m), None);
  }

  /** A later declaration of an alias overwrites every earlier one. */
  lemma {:induction false} LastDeclarationWins(t: Table, cs: seq<Command>, a: string, i: nat)
    requires i < |cs| && a in cs[i].aliases
    requires forall j :: i < j < |cs| ==> a !in cs[j].aliases
    ensures a in PutCommands(t, cs) && PutCommands(t, cs)[a] == cs[i]
    decreases |cs|
  {
    var t' := PutAliases(t, cs[0].aliases, cs[0]);
    if i == 0 {
      Undeclared(t', cs[1..], a);
    } else {
      LastDeclarationWins(t', cs[1..], a, i - 1);
    }
  }

  /** An alias no command declares keeps its old entry, or its absence. */
  lemma {:induction false} Undeclared(t: Table, cs: seq<Command>, a: string)
    requires forall j :: 0 <= j < |cs| ==> a !in cs[j].aliases
    ensures a in PutCommands(t, cs) <==> a in t
    ensures a in t ==> PutCommands(t, cs)[a] == t[a]
    decreases |cs|
  {
    if cs != [] {
      Undeclared(PutAliases(t, cs[0].aliases, cs[0]), cs[1..], a);
    }
  }

  // ---------------------------------------------------------------------
  // Root synopses and failure

  /** The synopses that a completed root registration lists, in order. */
  function PutSynopses(d: map<string, string>, cs: seq<Command>): map<string, string>
    decreases |cs|
  {
    if cs == [] then d
    else PutSynopses(if |cs[0].aliases| == 0 then d else d[cs[0].aliases[0] := Synopsis(cs[0])], cs[1..])
  }

  /** Only root registration lists synopses, one per command method. */
  lemma {:induction false} RootDescs(reg: Registry, cls: Provider)
    ensures var r := RegisterClass(reg, cls, None);
            r.ok ==> r.reg.descs == PutSynopses(reg.descs, cls.commands)
  {
    var start := if None in reg.commands then reg
                 else reg.(commands := reg.commands[None := map[]]);
    FromDescs(start, cls, 0);
  }

  lemma {:induction false} FromDescs(reg: Registry, cls: Provider, i: nat)
    requires None in reg.commands && i <= |cls.commands|
    ensures var r := RegisterFrom(reg, cls, i, None);
            r.ok ==> r.reg.descs == PutSynopses(reg.descs, cls.commands[i..])
    decreases |cls.commands| - i
  {
    if i < |cls.commands| {
      var m := cls.commands[i];
      var r := RegisterCommand(reg, m, None);
      if r.ok {
        var listed := ListSynopsis(FileAliases(reg, m, None), m);
        if m.isNested {
          ChildrenFrame(listed, m, 0, None);
        }
        FromDescs(r.reg, cls, i + 1);
        assert cls.commands[i..][1..] == cls.commands[i + 1..];
      }
    }
  }

  /** The synopsis of the last command with a given canonical alias wins. */
  lemma {:induction false} LastSynopsisWins(d: map<string, string>, cs: seq<Command>, i: nat)
    requires i < |cs| && |cs[i].aliases| > 0
    requires forall j :: i < j < |cs| && |cs[j].aliases| > 0 ==> cs[j].aliases[0] != cs[i].aliases[0]
    ensures cs[i].aliases[0] in PutSynopses(d, cs)
    ensures PutSynopses(d, cs)[cs[i].aliases[0]] == Synopsis(cs[i])
    decreases |cs|
  {
    var d' := if |cs[0].aliases| == 0 then d else d[cs[0].aliases[0] := Synopsis(cs[0])];
    if i == 0 {
      NoSynopsis(d', cs[1..], cs[0].aliases[0]);
    } else {
      LastSynopsisWins(d', cs[1..], i - 1);
    }
  }

  lemma {:induction false} NoSynopsis(d: map<string, string>, cs: seq<Command>, a: string)
    requires forall j :: 0 <= j < |cs| && |cs[j].aliases| > 0 ==> cs[j].aliases[0] != a
    ensures a in PutSynopses(d, cs) <==> a in d
    ensures a in d ==> PutSynopses(d, cs)[a] == d[a]
    decreases |cs|
  {
    if cs != [] {
      var d' := if |cs[0].aliases| == 0 then d else d[cs[0].aliases[0] := Synopsis(cs[0])];
      NoSynopsis(d', cs[1..], a);
    }
  }

  /**
   * A registration stops part-way exactly when it is at the root and one of
   * the class's command methods declares no alias.
   */
  lemma {:induction false} RegisterOkIff(reg: Registry, cls: Provider, parent: Parent)
    ensures RegisterClass(reg, cls, parent).ok <==>
            parent.Some? || forall i :: 0 <= i < |cls.commands| ==> |cls.commands[i].aliases| > 0
  {
    if parent.Some? {
      ClassFrame(reg, cls, parent, None);
    } else {
      var start := if None in reg.commands then reg
                   else reg.(commands := reg.commands[None := map[]]);
      FromOk(start, cls, 0);
    }
  }

  /** Every method of cls from index i on declares at least one alias. */
  ghost predicate NamedFrom(cls: Provider, i: nat)
  {
    forall j :: i <= j < |cls.commands| ==> |cls.commands[j].aliases| > 0
  }

  lemma {:induction false} FromOk(reg: Registry, cls: Provider, i: nat)
    requires None in reg.commands
    ensures RegisterFrom(reg, cls, i, None).ok <==> NamedFrom(cls, i)
    decreases |cls.commands| - i
  {
    if i < |cls.commands| {
      var r := RegisterCommand(reg, cls.commands[i], None);
      CommandOk(reg, cls.commands[i]);
      if r.ok {
        FromOk(r.reg, cls, i + 1);
        assert NamedFrom(cls, i) <==> NamedFrom(cls, i + 1);
      } else {
        assert !NamedFrom(cls, i);
      }
    }
  }

  lemma CommandOk(reg: Registry, m: Command)
    requires None in reg.commands
    ensures RegisterCommand(reg, m, None).ok <==> |m.aliases| > 0
  {
    if |m.aliases| > 0 && m.isNested {
      ChildrenFrame(ListSynopsis(FileAliases(reg, m, None), m), m, 0, None);
    }
  }
}
