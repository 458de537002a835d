/**
 * CommandsManager: the object that owns the two tables, fills them by
 * walking command classes, and dispatches token lines against them. Each
 * method is proved against the functions of Registration, Usage and
 * Dispatch that describe what it computes.
 */
module Manager {
  import opened Descriptors
  import opened Registration
  import opened Usage
  import opened Dispatch

  class CommandsManager {
    /** Commands by parent, then by alias; the root under None. */
    var commands: Tables
    /** Synopses of the root commands under their canonical aliases. */
    var descs: map<string, string>

    /** Both tables as one value. */
    function State(): Registry
      reads this
    {
      Registry(commands, descs)
    }

    ghost predicate Valid()
      reads this
    {
      Consistent(State())
    }

    /** Lines 65-71: both tables start empty. */
    constructor ()
      ensures commands == map[] && descs == map[]
      ensures Valid()
    {
      commands := map[];
      descs := map[];
    }

    /** register(cls), lines 81-83: registration at the root. */
    method Register(cls: Provider) returns (ok: bool)
      requires Valid()
      modifies this
      ensures Registration(State(), ok) == RegisterClass(old(State()), cls, None)
      ensures Valid()
    {
      ClassConsistent(State(), cls, None);
      ok := RegisterMethods(cls, None);
    }

    /**
     * registerMethods(cls, parent), lines 91-136. `ok` is false when the
     * pass stopped at a root command without aliases, where Java throws
     * out of line 119 with the tables as they were at that point.
     */
    method RegisterMethods(cls: Provider, parent: Parent) returns (ok: bool)
      modifies this
      ensures Registration(State(), ok) == RegisterClass(old(State()), cls, parent)
      decreases cls, 1
    {
      if parent !in commands {
        commands := commands[parent := map[]];
      }
      ok := true;
      var i := 0;
      while i < |cls.commands|
        invariant 0 <= i <= |cls.commands| && parent in commands
        invariant RegisterFrom(State(), cls, i, parent) == RegisterClass(old(State()), cls, parent)
      {
        ok := RegisterMethod(cls.commands[i], parent);
        if !ok {
          return;
        }
        i := i + 1;
      }
    }

    /** The body of the loop of lines 103-135, for one command method m. */
    method RegisterMethod(m: Command, parent: Parent) returns (ok: bool)
      requires parent in commands
      modifies this
      ensures Registration(State(), ok) == RegisterCommand(old(State()), m, parent)
      decreases m, 1
    {
      CacheAliases(m, parent);
      // lines 117-123: the synopsis of a root command
      if parent == None {
        if |m.aliases| == 0 {
          return false;
        }
        if |m.usage| == 0 {
          descs := descs[m.aliases[0] := m.desc];
        } else {
          descs := descs[m.aliases[0] := m.usage + " - " + m.desc];
        }
      }
      // lines 128-134: the classes of a nested command, under the command itself
      ok := true;
      if m.isNested {
        var j := 0;
        while j < |m.children|
          invariant 0 <= j <= |m.children|
          invariant RegisterChildren(State(), m, j) == RegisterCommand(old(State()), m, parent)
        {
          ok := RegisterMethods(m.children[j], Some(m));
          if !ok {
            return;
          }
          j := j + 1;
        }
      }
    }

    /** Lines 111-113: every alias of m, as declared, into the parent's table. */
    method CacheAliases(m: Command, parent: Parent)
      requires parent in commands
      modifies this
      ensures State() == FileAliases(old(State()), m, parent)
    {
      var table := commands[parent];
      var k := 0;
      while k < |m.aliases|
        invariant 0 <= k <= |m.aliases|
        invariant PutAliases(table, m.aliases[k..], m) == PutAliases(commands[parent], m.aliases, m)
      {
        assert m.aliases[k..][1..] == m.aliases[k + 1..];
        table := table[m.aliases[k] := m];
        k := k + 1;
      }
      commands := commands[parent := table];
    }

    /**
     * hasCommand, lines 145-147: whether the lowercased name is a root
     * alias; before any registration there is no root table to ask.
     */
    function HasCommand(command: string): (r: Result<bool>)
      reads this
      ensures r.Crash? <==> None !in commands
      ensures r.Ok? ==> (r.value <==> Lower(command) in commands[None])
    {
      if None !in commands then Crash(NullPointer) else Ok(Lower(command) in commands[None])
    }

    /** getCommands, lines 154-156: the root synopses, all filed under root aliases. */
    function GetCommands(): (r: map<string, string>)
      reads this
      ensures Valid() ==> forall a :: a in r ==> None in commands && a in commands[None]
    {
      descs
    }

    /** hasPermission(method, player), lines 365-378; `granted` is hasPermission(player, perm). */
    static method HasPermission(m: Command, granted: string -> bool) returns (r: bool)
      ensures r == Permitted(m, granted)
    {
      if m.permissions.None? {
        return true;
      }
      var perms := m.permissions.value;
      var i := 0;
      while i < |perms|
        invariant 0 <= i <= |perms|
        invariant forall j :: 0 <= j < i ==> !granted(perms[j])
      {
        if granted(perms[i]) {
          return true;
        }
        i := i + 1;
      }
      return false;
    }

    /** getUsage(args, level, cmd), lines 166-179. */
    static method GetUsage(args: seq<string>, level: nat, cmd: Command) returns (r: string)
      requires level < |args|
      ensures r == UsageLine(args[..level + 1], cmd)
    {
      r := UsagePrefix(args, level);
      r := r + (if |cmd.flags| > 0 then "[-" + cmd.flags + "] " else "");
      r := r + cmd.usage;
    }

    /** Lines 169-173 and 196-200: "/" and the tokens up to `level`, each followed by a space. */
    static method UsagePrefix(args: seq<string>, level: int) returns (r: string)
      requires -1 <= level < |args|
      ensures r == "/" + Path(args[..level + 1])
    {
      r := "/";
      var i := 0;
      while i <= level
        invariant 0 <= i <= level + 1
        invariant r == "/" + Path(args[..i])
      {
        assert args[..i + 1][..i] == args[..i];
        r := r + args[i] + " ";
        i := i + 1;
      }
    }

    /**
     * getNestedUsage(args, level, method, player), lines 191-235: the
     * path so far, and the canonical aliases of the children of `parent`
     * that the caller may run.
     */
    method GetNestedUsage(args: seq<string>, level: int, parent: Command, granted: string -> bool)
      returns (r: Result<NestedUsage>)
      requires -1 <= level < |args|
      ensures r == NestedUsageOf(commands, args[..level + 1], parent, granted)
    {
      var prefix := UsagePrefix(args, level);
      if Some(parent) !in commands {
        return Crash(NullPointer);
      }
      var crashed, found, allowed := CollectAllowed(commands[Some(parent)], granted);
      if crashed {
        return Crash(IndexOutOfBounds);
      }
      if |allowed| == 0 && found {
        return Fail(PermissionDenied);
      }
      return Ok(NestedUsage(prefix, allowed));
    }

    /**
     * The entries under `done` have been visited without an index fault:
     * each one the caller may run has an alias, and `allowed` holds their
     * canonical aliases.
     */
    static ghost predicate Faulty(table: Table, granted: string -> bool)
    {
      exists a :: a in table && Permitted(table[a], granted) && |table[a].aliases| == 0
    }

    static ghost predicate Scanned(table: Table, done: set<string>, granted: string -> bool, allowed: set<string>)
    {
      && (forall a :: a in done && a in table && Permitted(table[a], granted) ==> |table[a].aliases| > 0)
      && allowed == VisibleAmong(table, done, granted)
    }

    /**
     * Lines 202-219: visit every entry of a child table; `found` once
     * there is one, and the canonical alias of each the caller may run.
     * `crashed` is the ArrayIndexOutOfBoundsException of a permitted
     * entry without aliases, which ends the loop.
     */
    static method CollectAllowed(table: Table, granted: string -> bool) returns (crashed: bool, found: bool, allowed: set<string>)
      ensures found <==> table.Keys != {}
      ensures crashed <==> Faulty(table, granted)
      ensures !crashed ==> allowed == VisibleNames(table, granted)
    {
      crashed, found, allowed := false, false, {};
      var rest := table.Keys;
      ghost var done: set<string> := {};
      while rest != {}
        invariant done + rest == table.Keys && done !! rest
        invariant found <==> done != {}
        invariant Scanned(table, done, granted, allowed)
        decreases rest
      {
        var a :| a in rest;
        found := true;
        var fault;
        fault, allowed := Visit(table, a, granted, done, allowed);
        if fault {
          assert a in table && Permitted(table[a], granted) && |table[a].aliases| == 0;
          return true, found, allowed;
        }
        rest := rest - {a};
        done := done + {a};
      }
      assert done == table.Keys;
    }

    /** One pass of the loop of lines 210-218, over the entry under key a. */
    static method Visit(table: Table, a: string, granted: string -> bool, ghost done: set<string>, allowed: set<string>)
      returns (fault: bool, allowed': set<string>)
      requires a in table && Scanned(table, done, granted, allowed)
      ensures fault <==> Permitted(table[a], granted) && |table[a].aliases| == 0
      ensures !fault ==> Scanned(table, done + {a}, granted, allowed')
    {
      VisibleAmongStep(table, done, a, granted);
      allowed' := allowed;
      var child := table[a];
      var permitted := HasPermission(child, granted);
      if permitted {
        if |child.aliases| == 0 {
          return true, allowed';
        }
        allowed' := allowed' + {child.aliases[0]};
      }
      fault := false;
    }

    /**
     * executeMethod(parent, args, player, methodArgs, level), lines
     * 285-356: how the call ends, and the context written into slot 0 of
     * methodArgs exactly when a handler is invoked.
     */
    method ExecuteMethod(parent: Parent, args: seq<string>, methodArgs: array<Arg>, level: int,
                         granted: string -> bool, parse: seq<string> -> Context,
                         invoke: (Command, seq<Arg>) -> HandlerResult) returns (r: Result<()>)
      modifies methodArgs
      ensures r == Dispatched(commands, parent, args, level, old(methodArgs[..]), granted, parse, invoke)
      ensures var d := Delivered(commands, parent, args, level, old(methodArgs[..]), granted, parse);
              methodArgs[..] == if d.Some? then d.value.call else old(methodArgs[..])
      decreases |args| - level
    {
      if level < 0 || level >= |args| {
        return Crash(IndexOutOfBounds);
      }
      var cmdName := args[level];
      if parent !in commands {
        return Crash(NullPointer);
      }
      var table := commands[parent];
      var key := Lower(cmdName);
      if key !in table {
        if parent == None {
          return Fail(Unhandled);
        }
        var u := GetNestedUsage(args, level - 1, parent.value, granted);
        return Missing("Unknown command: " + cmdName, u);
      }
      var m := table[key];
      var permitted := HasPermission(m, granted);
      if !permitted {
        return Fail(PermissionDenied);
      }
      var argsCount := |args| - 1 - level;
      if m.isNested {
        if argsCount == 0 {
          var u := GetNestedUsage(args, level, m, granted);
          return Missing("Sub-command required.", u);
        }
        r := ExecuteMethod(Some(m), args, methodArgs, level + 1, granted, parse, invoke);
      } else {
        r := InvokeLeaf(m, args, level, methodArgs, parse, invoke);
      }
    }

    /**
     * Lines 316-354: validate a leaf's arguments, write the context into
     * slot 0 and invoke the handler.
     */
    method InvokeLeaf(m: Command, args: seq<string>, level: nat, methodArgs: array<Arg>,
                      parse: seq<string> -> Context, invoke: (Command, seq<Arg>) -> HandlerResult)
      returns (r: Result<()>)
      requires level < |args|
      modifies methodArgs
      ensures r == LeafOutcome(m, args, level, old(methodArgs[..]), parse, invoke)
      ensures var d := LeafCall(m, args, level, old(methodArgs[..]), parse);
              methodArgs[..] == if d.Some? then d.value.call else old(methodArgs[..])
    {
      var ctx := parse(args[level..]);
      var invalid := ValidateLeaf(args, level, m, ctx);
      if invalid.Some? {
        return Fail(invalid.value);
      }
      if methodArgs.Length == 0 {
        return Crash(IndexOutOfBounds);
      }
      methodArgs[0] := ContextArg(ctx);
      r := Outcome(invoke(m, methodArgs[..]));
    }

    /** Lines 323-338: the argument count, then the flags, of a leaf at `level`. */
    static method ValidateLeaf(args: seq<string>, level: nat, m: Command, ctx: Context) returns (e: Option<CommandError>)
      requires level < |args|
      ensures e == Validate(m, args[..level + 1], ctx)
    {
      if ctx.argsLength < m.min {
        var usage := GetUsage(args, level, m);
        return Some(UsageError("Too few arguments.", usage));
      }
      if m.max != -1 && ctx.argsLength > m.max {
        var usage := GetUsage(args, level, m);
        return Some(UsageError("Too many arguments.", usage));
      }
      var k := 0;
      while k < |ctx.flags|
        invariant 0 <= k <= |ctx.flags|
        invariant forall j :: 0 <= j < k ==> ctx.flags[j] in m.flags
      {
        if ctx.flags[k] !in m.flags {
          FirstUnknownFlagAt(ctx.flags, m.flags, k);
          var usage := GetUsage(args, level, m);
          return Some(UsageError("Unknown flag: " + [ctx.flags[k]], usage));
        }
        k := k + 1;
      }
      return None;
    }

    /** execute(args, player, methodArgs...), lines 267-273: slot 0 is left for the context. */
    method Execute(args: seq<string>, methodArgs: seq<Arg>, granted: string -> bool,
                   parse: seq<string> -> Context, invoke: (Command, seq<Arg>) -> HandlerResult)
      returns (r: Result<()>)
      ensures r == Dispatched(commands, None, args, 0, [Null] + methodArgs, granted, parse, invoke)
    {
      var newMethodArgs := new Arg[|methodArgs| + 1];
      newMethodArgs[0] := Null;
      forall i | 0 <= i < |methodArgs| {
        newMethodArgs[i + 1] := methodArgs[i];
      }
      assert newMethodArgs[..] == [Null] + methodArgs;
      r := ExecuteMethod(None, args, newMethodArgs, 0, granted, parse, invoke);
    }

    /**
     * execute(cmd, args, player, methodArgs...), lines 247-257: the
     * command name in front of its arguments, slot 0 left for the context.
     */
    method ExecuteCommand(cmd: string, args: seq<string>, methodArgs: seq<Arg>, granted: string -> bool,
                          parse: seq<string> -> Context, invoke: (Command, seq<Arg>) -> HandlerResult)
      returns (r: Result<()>)
      ensures r == Dispatched(commands, None, [cmd] + args, 0, [Null] + methodArgs, granted, parse, invoke)
    {
      var newArgs := [cmd] + args;
      var newMethodArgs := new Arg[|methodArgs| + 1];
      newMethodArgs[0] := Null;
      forall i | 0 <= i < |methodArgs| {
        newMethodArgs[i + 1] := methodArgs[i];
      }
      assert newMethodArgs[..] == [Null] + methodArgs;
      r := ExecuteMethod(None, newArgs, newMethodArgs, 0, granted, parse, invoke);
    }
  }
}
