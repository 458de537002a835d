/**
 * Command descriptors: what the @Command, @CommandPermissions and
 * @NestedCommand annotations declare about one handler method, the lookup
 * tables the manager builds from them, and the failures the dispatcher raises.
 */
module Descriptors {

  datatype Option<T> = None | Some(value: T)

  /**
   * One annotated handler method. `name` stands for the Java method itself
   * (declaring class and signature): two descriptors are the same method
   * exactly when they are equal.
   */
  datatype Command = Command(
    name: string,
    aliases: seq<string>,               // @Command.aliases, first = canonical
    usage: string,                      // @Command.usage
    desc: string,                       // @Command.desc
    flags: string,                      // @Command.flags, one letter per flag
    min: int,                           // @Command.min
    max: int,                           // @Command.max, -1 = unbounded
    permissions: Option<seq<string>>,   // None = no @CommandPermissions
    isNested: bool,                     // @NestedCommand present
    children: seq<Provider>)            // the classes @NestedCommand lists

  /** A class whose annotated methods are commands, in reflection order. */
  datatype Provider = Provider(name: string, commands: seq<Command>)

  /** The key of a table: None is the root (Java's null), Some(m) the children of m. */
  type Parent = Option<Command>
  type Table = map<string, Command>
  type Tables = map<Parent, Table>

  /**
   * Every key of every table is one of the aliases of the command it maps
   * to. Registration keeps this true (Registration.RegisterClass), and it is
   * what makes `aliases[0]` of a table entry exist.
   */
  ghost predicate WellFormed(tables: Tables)
  {
    forall p, a :: p in tables && a in tables[p] ==> a in tables[p][a].aliases
  }

  /**
   * hasPermission(Method, T): a command without a permissions annotation
   * admits every caller; otherwise the caller must hold at least one of the
   * listed permissions, so an empty list admits nobody. `granted` is the
   * host's per-caller permission test hasPermission(T, String).
   */
  predicate Permitted(m: Command, granted: string -> bool): (r: bool)
    ensures m.permissions.None? ==> r
    ensures m.permissions == Some([]) ==> !r
    ensures m.permissions.Some? ==> (r <==> exists p :: p in m.permissions.value && granted(p))
  {
    match m.permissions
    case None => true
    case Some(perms) => exists i :: 0 <= i < |perms| && granted(perms[i])
  }

  /** String.toLowerCase on the ASCII letters. */
  function LowerChar(c: char): char
  {
    if 'A' <= c <= 'Z' then (c as int + 32) as char else c
  }

  function Lower(s: string): (r: string)
    ensures |r| == |s|
    ensures forall i :: 0 <= i < |s| ==> r[i] == LowerChar(s[i])
  {
    if s == [] then "" else [LowerChar(s[0])] + Lower(s[1..])
  }

  /** Lowercasing twice is lowercasing once. */
  lemma LowerIdempotent(s: string)
    ensures Lower(Lower(s)) == Lower(s)
  {
    assert forall i :: 0 <= i < |s| ==> Lower(Lower(s))[i] == Lower(s)[i];
  }

  /**
   * Aliases are filed exactly as declared but looked up lowercased, so an
   * alias with a capital letter is never matched by any token.
   */
  lemma CapitalAliasUnreachable(alias: string, token: string)
    requires Lower(alias) != alias
    ensures Lower(token) != alias
  {
    LowerIdempotent(token);
  }

  /** The unchecked Java exceptions the manager itself can raise. */
  datatype Fault = NullPointer | IndexOutOfBounds

  /**
   * The nested usage of getNestedUsage: the command path typed so far and
   * the canonical aliases offered between "<" and ">". Java collects them in
   * a HashSet, so their order is not part of the model (see Usage.Render).
   */
  datatype NestedUsage = NestedUsage(prefix: string, names: set<string>)

  /** The CommandException hierarchy. */
  datatype CommandError =
    | Unhandled                                              // UnhandledCommandException
    | MissingNested(message: string, choices: NestedUsage)   // MissingNestedCommandException
    | PermissionDenied                                       // CommandPermissionsException
    | UsageError(message: string, usage: string)             // CommandUsageException
    | Wrapped(cause: string)                                 // WrappedCommandException
    | Plain(message: string)                                 // any other CommandException

  /** A normal result, a CommandException, or an unchecked exception. */
  datatype Result<T> = Ok(value: T) | Fail(error: CommandError) | Crash(fault: Fault)
}
