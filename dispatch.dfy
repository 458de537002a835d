/**
 * What executeMethod does with a token line, as functions over a frozen
 * command table: resolution from left to right, the order in which its
 * failures take precedence, leaf validation, and the handler call.
 */
module Dispatch {
  import opened Descriptors
  import opened Usage

  /**
   * What the host's CommandContext makes of a token slice: the number of
   * positional arguments and the flags, in the order it yields them.
   */
  datatype Context = Context(argsLength: int, flags: seq<char>)

  /** One slot of the handler's argument array. */
  datatype Arg = Null | ContextArg(ctx: Context) | Value(name: string)

  /**
   * How Method.invoke ended: normally; with IllegalArgument- or
   * IllegalAccessException (only printed); or through an
   * InvocationTargetException whose cause is or is not a CommandException.
   */
  datatype HandlerResult = Returned | InvocationRejected | ThrewCommand(error: CommandError) | ThrewOther(cause: string)

  /** The handler call that executeMethod makes, with the argument array it passes. */
  datatype Invocation = Invocation(handler: Command, call: seq<Arg>)

  /** Where resolution ends: at a leaf command and its level, or with an outcome. */
  datatype Step = Leaf(m: Command, level: nat) | Stop(outcome: Result<()>)

  /** A MissingNestedCommandException, unless building its usage failed first. */
  function Missing(message: string, u: Result<NestedUsage>): (r: Result<()>)
    ensures u.Ok? ==> r == Fail(MissingNested(message, u.value))
    ensures u.Fail? ==> r == Fail(u.error)
    ensures u.Crash? ==> r == Crash(u.fault)
  {
    match u
    case Ok(n) => Fail(MissingNested(message, n))
    case Fail(e) => Fail(e)
    case Crash(f) => Crash(f)
  }

  /**
   * Lines 288-314: look up the lowercased token at `level` under `parent`;
   * unknown at the root is unhandled, unknown below it is a missing
   * sub-command; then the permission check; then a nested command either
   * needs another token or passes resolution on to the next level.
   */
  function Resolve(reg: Tables, parent: Parent, args: seq<string>, level: int, granted: string -> bool): (r: Step)
    ensures r.Leaf? ==> level <= r.level < |args| && !r.m.isNested && Permitted(r.m, granted)
    ensures r.Stop? ==> !r.outcome.Ok?
    decreases |args| - level
  {
    if level < 0 || level >= |args| then Stop(Crash(IndexOutOfBounds))
    else if parent !in reg then Stop(Crash(NullPointer))
    else
      var key := Lower(args[level]);
      if key !in reg[parent] then
        if parent.None? then Stop(Fail(Unhandled))
        else Stop(Missing("Unknown command: " + args[level], NestedUsageOf(reg, args[..level], parent.value, granted)))
      else
        var m := reg[parent][key];
        if !Permitted(m, granted) then Stop(Fail(PermissionDenied))
        else if m.isNested then
          if |args| - 1 - level == 0 then
            Stop(Missing("Sub-command required.", NestedUsageOf(reg, args[..level + 1], m, granted)))
          else Resolve(reg, Some(m), args, level + 1, granted)
        else Leaf(m, level)
  }

  /** The first flag that is not in the alphabet, in the order the flags come (lines 333-338). */
  function FirstUnknownFlag(flags: seq<char>, alphabet: string): (r: Option<char>)
    ensures r.None? <==> forall i :: 0 <= i < |flags| ==> flags[i] in alphabet
    ensures r.Some? ==> exists i :: 0 <= i < |flags| && flags[i] == r.value && r.value !in alphabet &&
                                    forall j :: 0 <= j < i ==> flags[j] in alphabet
    decreases |flags|
  {
    if flags == [] then None
    else if flags[0] !in alphabet then Some(flags[0])
    else
      var r := FirstUnknownFlag(flags[1..], alphabet);
      if r.Some? then
        assert forall i :: 1 <= i < |flags| ==> flags[i] == flags[1..][i - 1];
        r
      else r
  }

  /**
   * Lines 323-338: too few arguments, then too many (unless max is -1),
   * then the first unknown flag, each with the leaf's usage line.
   */
  function Validate(m: Command, path: seq<string>, ctx: Context): (r: Option<CommandError>)
    ensures r.None? <==> && m.min <= ctx.argsLength
                         && (m.max == -1 || ctx.argsLength <= m.max)
                         && forall i :: 0 <= i < |ctx.flags| ==> ctx.flags[i] in m.flags
    ensures r.Some? ==> r.value.UsageError? && r.value.usage == UsageLine(path, m)
    ensures ctx.argsLength < m.min ==> r.value.message == "Too few arguments."
    ensures m.min <= ctx.argsLength && m.max != -1 && ctx.argsLength > m.max ==>
            r.value.message == "Too many arguments."
    ensures m.min <= ctx.argsLength && (m.max == -1 || ctx.argsLength <= m.max) &&
            FirstUnknownFlag(ctx.flags, m.flags).Some? ==>
            r == Some(UsageError("Unknown flag: " + [FirstUnknownFlag(ctx.flags, m.flags).value], UsageLine(path, m)))
  {
    var usage := UsageLine(path, m);
    if ctx.argsLength < m.min then Some(UsageError("Too few arguments.", usage))
    else if m.max != -1 && ctx.argsLength > m.max then Some(UsageError("Too many arguments.", usage))
    else match FirstUnknownFlag(ctx.flags, m.flags)
      case Some(f) => Some(UsageError("Unknown flag: " + [f], usage))
      case None => None
  }

  /**
   * Lines 342-354: a normal return, or an invocation refused by reflection
   * (only printed), is success; a CommandException from the handler is
   * passed on as it is; any other cause is wrapped, once.
   */
  function Outcome(h: HandlerResult): (r: Result<()>)
    ensures r.Ok? <==> h.Returned? || h.InvocationRejected?
    ensures !r.Crash?
    ensures h.ThrewCommand? ==> r == Fail(h.error)
    ensures h.ThrewOther? ==> r == Fail(Wrapped(h.cause))
  {
    match h
    case Returned => Ok(())
    case InvocationRejected => Ok(())
    case ThrewCommand(e) => Fail(e)
    case ThrewOther(c) => Fail(Wrapped(c))
  }

  /**
   * Lines 316-340 at a leaf m reached at level l: the handler call made,
   * if validation passes and there is a slot 0 to write the context into.
   */
  function LeafCall(m: Command, args: seq<string>, l: nat, methodArgs: seq<Arg>,
                    parse: seq<string> -> Context): (r: Option<Invocation>)
    requires l < |args|
    ensures r.Some? <==> Validate(m, args[..l + 1], parse(args[l..])).None? && |methodArgs| > 0
    ensures r.Some? ==> && r.value.handler == m
                        && |r.value.call| == |methodArgs|
                        && r.value.call[0] == ContextArg(parse(args[l..]))
                        && forall i :: 1 <= i < |methodArgs| ==> r.value.call[i] == methodArgs[i]
  {
    var ctx := parse(args[l..]);
    if Validate(m, args[..l + 1], ctx).None? && |methodArgs| > 0
    then Some(Invocation(m, methodArgs[0 := ContextArg(ctx)]))
    else None
  }

  /** Lines 316-354 at a leaf m reached at level l: how the call ends. */
  function LeafOutcome(m: Command, args: seq<string>, l: nat, methodArgs: seq<Arg>,
                       parse: seq<string> -> Context, invoke: (Command, seq<Arg>) -> HandlerResult): (r: Result<()>)
    requires l < |args|
    ensures Validate(m, args[..l + 1], parse(args[l..])).Some? ==>
            r == Fail(Validate(m, args[..l + 1], parse(args[l..])).value)
    ensures r.Crash? <==> Validate(m, args[..l + 1], parse(args[l..])).None? && |methodArgs| == 0
    ensures r.Crash? ==> r.fault == IndexOutOfBounds
    ensures var c := LeafCall(m, args, l, methodArgs, parse);
            c.Some? ==> r == Outcome(invoke(c.value.handler, c.value.call))
  {
    var ctx := parse(args[l..]);
    match Validate(m, args[..l + 1], ctx)
    case Some(e) => Fail(e)
    case None =>
      if |methodArgs| == 0 then Crash(IndexOutOfBounds)
      else Outcome(invoke(m, methodArgs[0 := ContextArg(ctx)]))
  }

  /** The handler call executeMethod makes, if any. */
  function Delivered(reg: Tables, parent: Parent, args: seq<string>, level: int, methodArgs: seq<Arg>,
                     granted: string -> bool, parse: seq<string> -> Context): (r: Option<Invocation>)
    ensures r.Some? ==> !r.value.handler.isNested && Permitted(r.value.handler, granted)
    ensures r.Some? ==> |r.value.call| == |methodArgs| > 0
  {
    match Resolve(reg, parent, args, level, granted)
    case Stop(_) => None
    case Leaf(m, l) => LeafCall(m, args, l, methodArgs, parse)
  }

  /** executeMethod(parent, args, player, methodArgs, level): how the call ends. */
  function Dispatched(reg: Tables, parent: Parent, args: seq<string>, level: int, methodArgs: seq<Arg>,
                      granted: string -> bool, parse: seq<string> -> Context,
                      invoke: (Command, seq<Arg>) -> HandlerResult): (r: Result<()>)
    ensures var d := Delivered(reg, parent, args, level, methodArgs, granted, parse);
            && (d.Some? ==> r == Outcome(invoke(d.value.handler, d.value.call)))
            && (d.None? ==> !r.Ok?)
  {
    match Resolve(reg, parent, args, level, granted)
    case Stop(o) => o
    case Leaf(m, l) => LeafOutcome(m, args, l, methodArgs, parse, invoke)
  }

  // ---------------------------------------------------------------------
  // Routes: an independent account of which tokens reach which handler

  /** Token k, lowercased, is filed under p as c. */
  ghost predicate Names(reg: Tables, p: Parent, args: seq<string>, k: int, c: Command)
  {
    0 <= k < |args| && p in reg && Lower(args[k]) in reg[p] && reg[p][Lower(args[k])] == c
  }

  /**
   * The tokens from `level` on name the commands cs one after another:
   * each is found, lowercased, in the table of the one before it (the
   * first under `parent`), the caller may run every one, all but the last
   * are nested and the last is a leaf.
   */
  ghost predicate Route(reg: Tables, parent: Parent, args: seq<string>, level: int,
                        granted: string -> bool, cs: seq<Command>)
    decreases |cs|
  {
    && |cs| > 0 && 0 <= level && level + |cs| <= |args|
    && Names(reg, parent, args, level, cs[0])
    && Permitted(cs[0], granted)
    && if |cs| == 1 then !cs[0].isNested
       else cs[0].isNested && Route(reg, Some(cs[0]), args, level + 1, granted, cs[1..])
  }

  /** Every route resolves to its last command. */
  lemma {:induction false} RouteResolves(reg: Tables, parent: Parent, args: seq<string>, level: int,
                                         granted: string -> bool, cs: seq<Command>)
    requires Route(reg, parent, args, level, granted, cs)
    ensures Resolve(reg, parent, args, level, granted) == Leaf(cs[|cs| - 1], level + |cs| - 1)
    decreases |cs|
  {
    if |cs| > 1 {
      RouteResolves(reg, Some(cs[0]), args, level + 1, granted, cs[1..]);
    }
  }

  /** The commands that resolution passes through on its way to a leaf. */
  ghost function RouteOf(reg: Tables, parent: Parent, args: seq<string>, level: int,
                         granted: string -> bool): seq<Command>
    requires Resolve(reg, parent, args, level, granted).Leaf?
    decreases |args| - level
  {
    var m := reg[parent][Lower(args[level])];
    if m.isNested then [m] + RouteOf(reg, Some(m), args, level + 1, granted) else [m]
  }

  /** cs is a route from `level` that ends at the command and level where step r stops. */
  ghost predicate RouteTo(reg: Tables, parent: Parent, args: seq<string>, level: int,
                          granted: string -> bool, cs: seq<Command>, r: Step)
  {
    Route(reg, parent, args, level, granted, cs) && r.Leaf? && cs[|cs| - 1] == r.m && r.level == level + |cs| - 1
  }

  /** Resolution reaches a leaf only along a route: the commands it passes through. */
  lemma {:induction false} LeafHasRoute(reg: Tables, parent: Parent, args: seq<string>, level: int,
                                        granted: string -> bool)
    requires Resolve(reg, parent, args, level, granted).Leaf?
    ensures RouteTo(reg, parent, args, level, granted, RouteOf(reg, parent, args, level, granted),
                    Resolve(reg, parent, args, level, granted))
    decreases |args| - level
  {
    var m := reg[parent][Lower(args[level])];
    if m.isNested {
      LeafHasRoute(reg, Some(m), args, level + 1, granted);
      var tail := RouteOf(reg, Some(m), args, level + 1, granted);
      assert ([m] + tail)[1..] == tail;
    }
  }

  /**
   * The handler of a leaf runs when, and only when, the tokens name a
   * route to it whose argument count and flags it accepts and there is a
   * slot 0 for the context; it then receives the context in slot 0 and
   * the other slots unchanged, and its outcome is the call's outcome.
   */
  lemma HandlerRunsAlongRoute(reg: Tables, parent: Parent, args: seq<string>, level: int, methodArgs: seq<Arg>,
                              granted: string -> bool, parse: seq<string> -> Context,
                              invoke: (Command, seq<Arg>) -> HandlerResult, cs: seq<Command>)
    requires Route(reg, parent, args, level, granted, cs)
    requires var l := level + |cs| - 1;
             Validate(cs[|cs| - 1], args[..l + 1], parse(args[l..])).None? && |methodArgs| > 0
    ensures var l := level + |cs| - 1;
            var call := methodArgs[0 := ContextArg(parse(args[l..]))];
            && Delivered(reg, parent, args, level, methodArgs, granted, parse) == Some(Invocation(cs[|cs| - 1], call))
            && Dispatched(reg, parent, args, level, methodArgs, granted, parse, invoke) == Outcome(invoke(cs[|cs| - 1], call))
  {
    RouteResolves(reg, parent, args, level, granted, cs);
  }

  /**
   * Handler call d is made at the end of route cs, whose leaf accepted
   * the context, with the context in slot 0 of methodArgs.
   */
  ghost predicate CallAlong(reg: Tables, parent: Parent, args: seq<string>, level: int, methodArgs: seq<Arg>,
                            granted: string -> bool, parse: seq<string> -> Context, d: Invocation, cs: seq<Command>)
  {
    && Route(reg, parent, args, level, granted, cs) && cs[|cs| - 1] == d.handler
    && var l := level + |cs| - 1;
       Validate(d.handler, args[..l + 1], parse(args[l..])).None? &&
       |methodArgs| > 0 && d.call == methodArgs[0 := ContextArg(parse(args[l..]))]
  }

  lemma HandlerRunsOnlyAlongRoute(reg: Tables, parent: Parent, args: seq<string>, level: int, methodArgs: seq<Arg>,
                                  granted: string -> bool, parse: seq<string> -> Context)
    requires Delivered(reg, parent, args, level, methodArgs, granted, parse).Some?
    ensures exists cs :: CallAlong(reg, parent, args, level, methodArgs, granted, parse,
                                   Delivered(reg, parent, args, level, methodArgs, granted, parse).value, cs)
  {
    var r := Resolve(reg, parent, args, level, granted);
    var d := Delivered(reg, parent, args, level, methodArgs, granted, parse).value;
    LeafCallMade(reg, parent, args, level, methodArgs, granted, parse);
    LeafHasRoute(reg, parent, args, level, granted);
    var cs := RouteOf(reg, parent, args, level, granted);
    CallAtRouteEnd(reg, parent, args, level, methodArgs, granted, parse, d, cs, r);
  }

  /** A call made at the leaf ending a route is a call along that route. */
  lemma CallAtRouteEnd(reg: Tables, parent: Parent, args: seq<string>, level: int, methodArgs: seq<Arg>,
                       granted: string -> bool, parse: seq<string> -> Context, d: Invocation, cs: seq<Command>, r: Step)
    requires RouteTo(reg, parent, args, level, granted, cs, r)
    requires d.handler == r.m && Validate(r.m, args[..r.level + 1], parse(args[r.level..])).None?
    requires |methodArgs| > 0 && d.call == methodArgs[0 := ContextArg(parse(args[r.level..]))]
    ensures CallAlong(reg, parent, args, level, methodArgs, granted, parse, d, cs)
  {
  }

  /** A handler call is made only at a leaf that accepted the context, with the context in slot 0. */
  lemma LeafCallMade(reg: Tables, parent: Parent, args: seq<string>, level: int, methodArgs: seq<Arg>,
                     granted: string -> bool, parse: seq<string> -> Context)
    requires Delivered(reg, parent, args, level, methodArgs, granted, parse).Some?
    ensures var r := Resolve(reg, parent, args, level, granted);
            var d := Delivered(reg, parent, args, level, methodArgs, granted, parse).value;
            && r.Leaf? && d.handler == r.m
            && Validate(r.m, args[..r.level + 1], parse(args[r.level..])).None?
            && |methodArgs| > 0 && d.call == methodArgs[0 := ContextArg(parse(args[r.level..]))]
  {
  }

  /**
   * Lines 293-300: an unknown token ends dispatch without a handler call;
   * at the root it is unhandled, below it a missing sub-command carrying
   * the parent's usage at the previous level.
   */
  lemma UnknownToken(reg: Tables, parent: Parent, args: seq<string>, level: int, methodArgs: seq<Arg>,
                     granted: string -> bool, parse: seq<string> -> Context,
                     invoke: (Command, seq<Arg>) -> HandlerResult)
    requires 0 <= level < |args| && parent in reg && Lower(args[level]) !in reg[parent]
    ensures Delivered(reg, parent, args, level, methodArgs, granted, parse).None?
    ensures Dispatched(reg, parent, args, level, methodArgs, granted, parse, invoke) ==
            if parent.None? then Fail(Unhandled)
            else Missing("Unknown command: " + args[level], NestedUsageOf(reg, args[..level], parent.value, granted))
  {
  }

  /**
   * Lines 302-304: the permission check on a matched command comes before
   * routing and validation: whatever tokens follow, a caller who may not
   * run it gets a permission failure and no handler runs.
   */
  lemma PermissionFirst(reg: Tables, parent: Parent, args: seq<string>, level: int, methodArgs: seq<Arg>,
                        granted: string -> bool, parse: seq<string> -> Context,
                        invoke: (Command, seq<Arg>) -> HandlerResult)
    requires 0 <= level < |args| && parent in reg && Lower(args[level]) in reg[parent]
    requires !Permitted(reg[parent][Lower(args[level])], granted)
    ensures Delivered(reg, parent, args, level, methodArgs, granted, parse).None?
    ensures Dispatched(reg, parent, args, level, methodArgs, granted, parse, invoke) == Fail(PermissionDenied)
  {
  }

  /**
   * Lines 308-311: a nested command that is the last token asks for a
   * sub-command with its own usage, and no handler runs.
   */
  lemma SubCommandRequired(reg: Tables, parent: Parent, args: seq<string>, methodArgs: seq<Arg>,
                           granted: string -> bool, parse: seq<string> -> Context,
                           invoke: (Command, seq<Arg>) -> HandlerResult)
    requires |args| > 0 && parent in reg && Lower(args[|args| - 1]) in reg[parent]
    requires var m := reg[parent][Lower(args[|args| - 1])];
             m.isNested && Permitted(m, granted)
    ensures var m := reg[parent][Lower(args[|args| - 1])];
            && Delivered(reg, parent, args, |args| - 1, methodArgs, granted, parse).None?
            && Dispatched(reg, parent, args, |args| - 1, methodArgs, granted, parse, invoke) ==
               Missing("Sub-command required.", NestedUsageOf(reg, args, m, granted))
  {
    assert args[..|args|] == args;
  }

  /**
   * Lookup ignores the case of the tokens: two token lines that agree
   * once lowercased reach the same leaf, or neither reaches one.
   */
  lemma {:induction false} LeafIgnoresCase(reg: Tables, parent: Parent, args: seq<string>, other: seq<string>,
                                           level: int, granted: string -> bool)
    requires |args| == |other| && forall i :: 0 <= i < |args| ==> Lower(args[i]) == Lower(other[i])
    requires Resolve(reg, parent, args, level, granted).Leaf?
    ensures Resolve(reg, parent, other, level, granted) == Resolve(reg, parent, args, level, granted)
    decreases |args| - level
  {
    var m := reg[parent][Lower(args[level])];
    if m.isNested {
      LeafIgnoresCase(reg, Some(m), args, other, level + 1, granted);
    }
  }

  /** Resolution below the root never reports an unhandled command. */
  lemma {:induction false} NestedNeverUnhandled(reg: Tables, m: Command, args: seq<string>, level: int,
                                                granted: string -> bool)
    ensures Resolve(reg, Some(m), args, level, granted) != Stop(Fail(Unhandled))
    decreases |args| - level
  {
    if 0 <= level < |args| && Some(m) in reg && Lower(args[level]) in reg[Some(m)] {
      var c := reg[Some(m)][Lower(args[level])];
      if Permitted(c, granted) && c.isNested && |args| - 1 - level != 0 {
        NestedNeverUnhandled(reg, c, args, level + 1, granted);
      }
    } else if 0 <= level < |args| && Some(m) in reg {
      var u := NestedUsageOf(reg, args[..level], m, granted);
      assert u.Fail? ==> u.error == PermissionDenied;
    }
  }

  /** Every nested command in the tables has a table of its own. */
  ghost predicate Closed(reg: Tables)
  {
    forall p, a :: p in reg && a in reg[p] && reg[p][a].isNested ==> Some(reg[p][a]) in reg
  }

  /**
   * In a well-formed registry with a root table, in which every nested
   * command has a table, a call from the root with at least one token and
   * one argument slot never runs into an unchecked exception.
   */
  lemma {:induction false} NoCrash(reg: Tables, parent: Parent, args: seq<string>, level: int, methodArgs: seq<Arg>,
                                   granted: string -> bool, parse: seq<string> -> Context,
                                   invoke: (Command, seq<Arg>) -> HandlerResult)
    requires WellFormed(reg) && Closed(reg) && parent in reg
    requires 0 <= level < |args| && |methodArgs| > 0
    ensures !Dispatched(reg, parent, args, level, methodArgs, granted, parse, invoke).Crash?
    decreases |args| - level
  {
    var key := Lower(args[level]);
    if key !in reg[parent] {
      if parent.Some? {
        NestedUsageOutcomes(reg, args[..level], parent.value, granted);
      }
    } else {
      var m := reg[parent][key];
      if Permitted(m, granted) && m.isNested {
        if |args| - 1 - level == 0 {
          NestedUsageOutcomes(reg, args[..level + 1], m, granted);
        } else {
          NoCrash(reg, Some(m), args, level + 1, methodArgs, granted, parse, invoke);
        }
      }
    }
  }

  /** The first unknown flag at k is the one validation reports. */
  lemma {:induction false} FirstUnknownFlagAt(flags: seq<char>, alphabet: string, k: nat)
    requires k < |flags| && flags[k] !in alphabet
    requires forall j :: 0 <= j < k ==> flags[j] in alphabet
    ensures FirstUnknownFlag(flags, alphabet) == Some(flags[k])
    decreases k
  {
    if k > 0 {
      FirstUnknownFlagAt(flags[1..], alphabet, k - 1);
    }
  }

  /**
   * hasCommand agrees with dispatch from the root: a token is a root
   * command exactly when dispatching it (with any tokens after it) does
   * not end as unhandled.
   */
  lemma RootLookup(reg: Tables, command: string, rest: seq<string>, granted: string -> bool)
    requires None in reg
    ensures Lower(command) in reg[None] <==>
            Resolve(reg, None, [command] + rest, 0, granted) != Stop(Fail(Unhandled))
  {
    var args := [command] + rest;
    assert args[0] == command;
    if Lower(command) in reg[None] {
      var m := reg[None][Lower(command)];
      if Permitted(m, granted) && m.isNested && |args| - 1 != 0 {
        NestedNeverUnhandled(reg, m, args, 1, granted);
      }
    }
  }

  /**
   * Both execute overloads pass the extra arguments behind an empty slot
   * 0: a handler that runs gets the context first and then exactly those
   * arguments.
   */
  lemma ContextPrepended(reg: Tables, args: seq<string>, extra: seq<Arg>,
                         granted: string -> bool, parse: seq<string> -> Context)
    requires Delivered(reg, None, args, 0, [Null] + extra, granted, parse).Some?
    ensures var d := Delivered(reg, None, args, 0, [Null] + extra, granted, parse).value;
            |d.call| == |extra| + 1 && d.call[0].ContextArg? && d.call[1..] == extra
  {
    var d := Delivered(reg, None, args, 0, [Null] + extra, granted, parse).value;
    assert d.call[1..] == ([Null] + extra)[1..];
  }
}
