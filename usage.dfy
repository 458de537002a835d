/**
 * The usage texts the manager attaches to its failures: the leaf usage of
 * getUsage and the caller-filtered nested usage of getNestedUsage, with what
 * can be read back out of them.
 */
module Usage {
  import opened Descriptors

  /** The tokens typed so far, each followed by one space (the loops of lines 171-173 and 198-200). */
  function Path(tokens: seq<string>): (r: string)
    ensures |r| >= |tokens|
    ensures r == [] <==> tokens == []
    ensures tokens != [] ==> r[|r| - 1] == ' '
    decreases |tokens|
  {
    if tokens == [] then "" else Path(tokens[..|tokens| - 1]) + tokens[|tokens| - 1] + " "
  }

  /** The "[-flags] " part of a leaf usage, present only when the command declares flags. */
  function FlagPart(flags: string): string
  {
    if |flags| > 0 then "[-" + flags + "] " else ""
  }

  /** getUsage(args, level, cmd) with path = args[0..level]. */
  function UsageLine(path: seq<string>, m: Command): (r: string)
    ensures |r| >= 1 + |Path(path)| + |m.usage|
    ensures r[0] == '/' && r[1..|Path(path)| + 1] == Path(path)
    ensures r[|r| - |m.usage|..] == m.usage
    ensures |m.flags| == 0 <==> |r| == 1 + |Path(path)| + |m.usage|
    ensures |m.flags| > 0 ==> r[1 + |Path(path)|..|r| - |m.usage|] == "[-" + m.flags + "] "
  {
    "/" + Path(path) + FlagPart(m.flags) + m.usage
  }

  /** Index of the first c in s, or |s| when there is none. */
  function IndexOf(s: string, c: char): (k: nat)
    ensures k <= |s|
    ensures forall i :: 0 <= i < k ==> s[i] != c
    ensures k < |s| ==> s[k] == c
    decreases |s|
  {
    if s == [] then 0 else if s[0] == c then 0 else 1 + IndexOf(s[1..], c)
  }

  /** s cut at every c; the reading-back partner of Path and Join. */
  function Split(s: string, c: char): (r: seq<string>)
    ensures |r| > 0
    decreases |s|
  {
    var k := IndexOf(s, c);
    if k == |s| then [s] else [s[..k]] + Split(s[k + 1..], c)
  }

  /** Text that does not contain c is cut right after itself. */
  lemma SplitAfter(t: string, c: char, rest: string)
    requires c !in t
    ensures Split(t + [c] + rest, c) == [t] + Split(rest, c)
  {
    var s := t + [c] + rest;
    IndexOfFirst(s, c, |t|);
    assert s[..|t|] == t;
    assert s[|t| + 1..] == rest;
  }

  /** The first c stands at k when s[k] is c and no earlier character is. */
  lemma {:induction false} IndexOfFirst(s: string, c: char, k: nat)
    requires k < |s| && s[k] == c
    requires forall i :: 0 <= i < k ==> s[i] != c
    ensures IndexOf(s, c) == k
    decreases k
  {
    if k > 0 {
      IndexOfFirst(s[1..], c, k - 1);
    }
  }

  /** Path is Path of the first token followed by the path of the rest. */
  lemma {:induction false} PathCons(t: string, rest: seq<string>)
    ensures Path([t] + rest) == t + " " + Path(rest)
    decreases |rest|
  {
    if rest != [] {
      var init := rest[..|rest| - 1];
      var last := rest[|rest| - 1];
      assert ([t] + rest)[..|rest|] == [t] + init;
      PathCons(t, init);
      assert rest == init + [last];
    } else {
      assert ([t] + rest)[..0] == [];
    }
  }

  /** Reading back the first token of a path. */
  lemma PathSplitsStep(t: string, rest: seq<string>, s: string)
    requires ' ' !in t
    ensures Split(Path([t] + rest) + s, ' ') == [t] + Split(Path(rest) + s, ' ')
  {
    PathCons(t, rest);
    var u := Path(rest) + s;
    calc {
      Path([t] + rest) + s;
      (t + " " + Path(rest)) + s;
      { assert " " == [' ']; }
      t + [' '] + u;
    }
    SplitAfter(t, ' ', u);
  }

  /**
   * Reading a usage path back: when no token holds a space, cutting the
   * path (and whatever follows it) at the spaces yields the tokens first.
   */
  lemma {:induction false} PathSplits(tokens: seq<string>, s: string)
    requires forall i :: 0 <= i < |tokens| ==> ' ' !in tokens[i]
    ensures Split(Path(tokens) + s, ' ') == tokens + Split(s, ' ')
    decreases |tokens|
  {
    if tokens != [] {
      var t, rest := tokens[0], tokens[1..];
      assert tokens == [t] + rest;
      PathSplits(rest, s);
      PathSplitsStep(t, rest, s);
      assert [t] + (rest + Split(s, ' ')) == tokens + Split(s, ' ');
    } else {
      assert Path(tokens) + s == s;
    }
  }

  /**
   * A leaf usage line starts with "/" and then the command path that was
   * typed, token by token.
   */
  lemma UsageLineStartsWithPath(path: seq<string>, m: Command)
    requires forall i :: 0 <= i < |path| ==> ' ' !in path[i]
    ensures var r := UsageLine(path, m);
            |r| > 0 && r[0] == '/' &&
            Split(r[1..], ' ') == path + Split(FlagPart(m.flags) + m.usage, ' ')
  {
    var tail := FlagPart(m.flags) + m.usage;
    var r := UsageLine(path, m);
    assert r == ['/'] + (Path(path) + tail);
    assert r[1..] == Path(path) + tail;
    PathSplits(path, tail);
  }

  /** The canonical aliases of the entries under the given keys that the caller may run. */
  function VisibleAmong(t: Table, keys: set<string>, granted: string -> bool): set<string>
  {
    set a | a in keys && a in t && Permitted(t[a], granted) && |t[a].aliases| > 0 :: t[a].aliases[0]
  }

  /** The canonical alias of every child the caller may run (the loop of lines 210-219). */
  function VisibleNames(t: Table, granted: string -> bool): set<string>
  {
    VisibleAmong(t, t.Keys, granted)
  }

  /** Visiting one more entry adds its canonical alias when the caller may run it. */
  lemma VisibleAmongStep(t: Table, keys: set<string>, a: string, granted: string -> bool)
    requires a in t
    ensures VisibleAmong(t, keys + {a}, granted) ==
            VisibleAmong(t, keys, granted) +
            (if Permitted(t[a], granted) && |t[a].aliases| > 0 then {t[a].aliases[0]} else {})
  {
  }

  /**
   * getNestedUsage(args, level, parent) with path = args[0..level]: the
   * usage of a nested command, the failure it raises when the caller may
   * run none of its children, or the unchecked exception it runs into.
   */
  function NestedUsageOf(reg: Tables, path: seq<string>, parent: Command, granted: string -> bool): (r: Result<NestedUsage>)
    ensures r == Crash(NullPointer) <==> Some(parent) !in reg
    ensures r == Crash(IndexOutOfBounds) <==>
            Some(parent) in reg &&
            exists a :: a in reg[Some(parent)] && Permitted(reg[Some(parent)][a], granted) && |reg[Some(parent)][a].aliases| == 0
    ensures r.Fail? ==> r.error == PermissionDenied && |reg[Some(parent)]| > 0 &&
                        forall a :: a in reg[Some(parent)] ==> !Permitted(reg[Some(parent)][a], granted)
    ensures r.Ok? ==> r.value.prefix == "/" + Path(path)
    ensures r.Ok? ==> forall x :: x in r.value.names <==>
                        exists a :: && a in reg[Some(parent)] && Permitted(reg[Some(parent)][a], granted)
                                    && |reg[Some(parent)][a].aliases| > 0 && reg[Some(parent)][a].aliases[0] == x
  {
    if Some(parent) !in reg then Crash(NullPointer)
    else
      var t := reg[Some(parent)];
      if exists a :: a in t && Permitted(t[a], granted) && |t[a].aliases| == 0 then Crash(IndexOutOfBounds)
      else
        var names := VisibleNames(t, granted);
        assert forall a :: a in t && Permitted(t[a], granted) ==> t[a].aliases[0] in names;
        if names == {} && |t| > 0 then Fail(PermissionDenied)
        else Ok(NestedUsage("/" + Path(path), names))
  }

  /**
   * Every outcome of getNestedUsage: no table is a NullPointerException;
   * in a well-formed registry there is never an index fault; a non-empty
   * table none of whose children the caller may run is a permission
   * failure; otherwise the usage offers exactly the caller's children.
   */
  lemma NestedUsageOutcomes(reg: Tables, path: seq<string>, parent: Command, granted: string -> bool)
    requires WellFormed(reg)
    ensures var r := NestedUsageOf(reg, path, parent, granted);
            && (r == Crash(NullPointer) <==> Some(parent) !in reg)
            && (!r.Crash? ==> (
                 && (r == Fail(PermissionDenied) <==>
                      |reg[Some(parent)]| > 0 &&
                      forall a :: a in reg[Some(parent)] ==> !Permitted(reg[Some(parent)][a], granted))
                 && (r.Ok? ==> r.value.prefix == "/" + Path(path))
                 && (r.Ok? ==> forall a :: a in reg[Some(parent)] && Permitted(reg[Some(parent)][a], granted)
                                 ==> reg[Some(parent)][a].aliases[0] in r.value.names)
                 && (r.Ok? ==> forall x :: x in r.value.names ==>
                                 exists a :: && a in reg[Some(parent)] && Permitted(reg[Some(parent)][a], granted)
                                             && reg[Some(parent)][a].aliases[0] == x)))
            && r != Crash(IndexOutOfBounds)
  {
    if Some(parent) in reg {
      var t := reg[Some(parent)];
      assert forall a :: a in t ==> |t[a].aliases| > 0;
      forall a | a in t && Permitted(t[a], granted)
        ensures VisibleNames(t, granted) != {}
      {
        assert t[a].aliases[0] in VisibleNames(t, granted);
      }
    }
  }

  /** The names listed in a nested usage, in the order an enumeration of the set yields them. */
  ghost predicate Enumerates(order: seq<string>, names: set<string>)
  {
    && (forall i, j :: 0 <= i < j < |order| ==> order[i] != order[j])
    && (forall x :: x in order <==> x in names)
    && |order| == |names|
  }

  /** StringUtil.joinString(names, "|", 0). */
  function Join(order: seq<string>, sep: char): (r: string)
    ensures order == [] ==> r == ""
    ensures |order| > 0 ==> |r| >= |order[0]| && r[..|order[0]|] == order[0]
    ensures |order| > 1 ==> |r| > |order[0]| && r[|order[0]|] == sep
    decreases |order|
  {
    if order == [] then ""
    else if |order| == 1 then order[0]
    else order[0] + [sep] + Join(order[1..], sep)
  }

  /** Lines 206 and 221-232: the choices between "<" and ">", "?" when there are none. */
  function Render(u: NestedUsage, order: seq<string>): (r: string)
    ensures |r| >= |u.prefix| + 2 && r[..|u.prefix|] == u.prefix
    ensures r[|u.prefix|] == '<' && r[|r| - 1] == '>'
    ensures order == [] ==> r[|u.prefix| + 1..|r| - 1] == "?"
  {
    u.prefix + "<" + (if order == [] then "?" else Join(order, '|')) + ">"
  }

  /** Cutting a joined list at the separator gives the list back. */
  lemma {:induction false} JoinSplits(order: seq<string>, sep: char)
    requires |order| > 0
    requires forall i :: 0 <= i < |order| ==> sep !in order[i]
    ensures Split(Join(order, sep), sep) == order
    decreases |order|
  {
    if |order| == 1 {
      assert IndexOf(order[0], sep) == |order[0]|;
    } else {
      SplitAfter(order[0], sep, Join(order[1..], sep));
      JoinSplits(order[1..], sep);
    }
  }

  /** The text between the brackets of p + "<" + m + ">". */
  lemma Bracketed(p: string, m: string)
    ensures var r := p + "<" + m + ">";
            r[..|p|] == p && r[|p| + 1 .. |r| - 1] == m
  {
    var r := p + "<" + m + ">";
    assert forall i :: 0 <= i < |m| ==> r[|p| + 1 + i] == m[i];
  }

  /**
   * What a rendered nested usage offers: when no name holds a '|', the text
   * between "<" and ">" cut at the bars is an enumeration of exactly the
   * visible names, and "?" when there are none.
   */
  lemma RenderOffersNames(u: NestedUsage, order: seq<string>)
    requires Enumerates(order, u.names)
    requires forall x :: x in u.names ==> '|' !in x
    ensures var r := Render(u, order);
            var inner := r[|u.prefix| + 1 .. |r| - 1];
            && r[..|u.prefix|] == u.prefix
            && (u.names == {} ==> inner == "?")
            && (u.names != {} ==> Split(inner, '|') == order)
  {
    var middle := if order == [] then "?" else Join(order, '|');
    Bracketed(u.prefix, middle);
    if u.names == {} {
      assert |order| == 0;
    } else {
      var x :| x in u.names;
      assert x in order;
      forall i | 0 <= i < |order|
        ensures '|' !in order[i]
      {
        assert order[i] in u.names;
      }
      JoinSplits(order, '|');
    }
  }
}
