/**
 libex_core/cli/_render.py: the fish completion rows.  A row carries two word
 tests, words that must all be on the line and words of which none may be; the
 tests look for a word anywhere, so names shared between groups and top-level
 commands have to be told apart by these two tests alone.
 */
module FishGuards {
  import opened Common

  datatype Flag = Flag(words: seq<string>, choices: seq<string>)

  datatype Positional = Positional(name: string, choices: seq<string>)

  /** A parser as argparse holds it, and the command the renderer reads off it. */
  datatype Parser = Parser(name: string, options: seq<Flag>, positionals: seq<Positional>, nested: seq<Parser>)

  datatype Command = Command(name: string, options: seq<Flag>, positionals: seq<Positional>, children: seq<Command>)

  /** What a row completes. */
  datatype Offer = Children(names: seq<string>) | OptionFlag(option: Flag) | Choices(words: seq<string>)

  datatype Row = Row(allOf: seq<string>, noneOf: seq<string>, offer: Offer)

  // ---------------------------------------------------------------- reading the parser

  /** _read_command: a group keeps nothing of its own but the word that picks a child. */
  function ReadCommand(p: Parser): Command {
    if p.nested == [] then Command(p.name, p.options, p.positionals, [])
    else Command(p.name, [], [Positional("command", Names(ReadAll(p.nested)))], ReadAll(p.nested))
  }

  function ReadAll(ps: seq<Parser>): (r: seq<Command>)
    ensures |r| == |ps|
  {
    seq(|ps|, i requires 0 <= i < |ps| => ReadCommand(ps[i]))
  }

  function Names(commands: seq<Command>): (r: seq<string>)
    ensures |r| == |commands|
  {
    seq(|commands|, i requires 0 <= i < |commands| => commands[i].name)
  }

  /** No group has options, at any depth. */
  ghost predicate PlainGroups(c: Command) {
    && (c.children != [] ==> c.options == [])
    && forall i | 0 <= i < |c.children| :: PlainGroups(c.children[i])
  }

  lemma {:induction false} ReadIsPlain(p: Parser)
    ensures PlainGroups(ReadCommand(p))
    decreases p
  {
    forall i | 0 <= i < |p.nested| ensures PlainGroups(ReadAll(p.nested)[i]) {
      ReadIsPlain(p.nested[i]);
    }
  }

  /** Reading keeps the tree: every name in its place, and what a command without
      subcommands takes. */
  lemma ReadKeepsTheTree(p: Parser)
    ensures var c := ReadCommand(p);
            && c.name == p.name && |c.children| == |p.nested|
            && (forall i | 0 <= i < |p.nested| :: c.children[i].name == p.nested[i].name)
            && (p.nested == [] ==> c.options == p.options && c.positionals == p.positionals)
            && (p.nested != [] ==>
                  |c.positionals| == 1 && c.positionals[0].name == "command" && |c.positionals[0].choices| == |p.nested| &&
                  forall i | 0 <= i < |p.nested| :: c.positionals[0].choices[i] == p.nested[i].name)
  {
    var c := ReadCommand(p);
    if p.nested != [] {
      assert c.positionals == [Positional("command", Names(ReadAll(p.nested)))];
    }
  }

  // ---------------------------------------------------------------- the rows

  function OptionRows(options: seq<Flag>, head: seq<string>, groups: seq<string>): seq<Row> {
    if options == [] then []
    else OptionRows(options[..|options| - 1], head, groups) + [Row(head, groups, OptionFlag(options[|options| - 1]))]
  }

  function ChoiceRows(positionals: seq<Positional>, head: seq<string>, groups: seq<string>): seq<Row> {
    if positionals == [] then []
    else
      var last := positionals[|positionals| - 1];
      ChoiceRows(positionals[..|positionals| - 1], head, groups)
      + (if last.choices == [] then [] else [Row(head, groups, Choices(last.choices))])
  }

  /** One command's own rows, its descendants' aside. */
  function OwnRows(c: Command, path: seq<string>, groups: seq<string>): seq<Row> {
    (if c.children == [] then [] else [Row(path, Names(c.children) + groups, Children(Names(c.children)))])
    + OptionRows(c.options, path, groups)
    + (if c.children == [] then ChoiceRows(c.positionals, path, groups) else [])
  }

  /** _fish_lines, or None where it refuses a command nested too deep. */
  function Lines(c: Command, path: seq<string>, groups: seq<string>): Option<seq<Row>>
    decreases c, 1, 0
  {
    if |path| > 2 then None
    else
      var below := ChildLines(c, c.children, path);
      if below.None? then None else Some(OwnRows(c, path, groups) + below.value)
  }

  function ChildLines(parent: Command, children: seq<Command>, path: seq<string>): Option<seq<Row>>
    requires forall i | 0 <= i < |children| :: children[i] < parent
    decreases parent, 0, |children|
  {
    if children == [] then Some([])
    else
      var n := |children| - 1;
      var before, last := ChildLines(parent, children[..n], path), Lines(children[n], path + [children[n].name], []);
      if before.None? || last.None? then None else Some(before.value + last.value)
  }

  method OwnLines(c: Command, path: seq<string>, groups: seq<string>) returns (rows: seq<Row>)
    ensures rows == OwnRows(c, path, groups)
  {
    rows := [];
    if c.children != [] {
      rows := rows + [Row(path, Names(c.children) + groups, Children(Names(c.children)))];
    }
    var i := 0;
    ghost var first := rows;
    while i < |c.options|
      invariant 0 <= i <= |c.options| && rows == first + OptionRows(c.options[..i], path, groups)
    {
      assert c.options[..i + 1][..i] == c.options[..i];
      rows := rows + [Row(path, groups, OptionFlag(c.options[i]))];
      i := i + 1;
    }
    assert c.options[..i] == c.options;
    if c.children == [] {
      first, i := rows, 0;
      while i < |c.positionals|
        invariant 0 <= i <= |c.positionals| && rows == first + ChoiceRows(c.positionals[..i], path, groups)
      {
        assert c.positionals[..i + 1][..i] == c.positionals[..i];
        if c.positionals[i].choices != [] {
          rows := rows + [Row(path, groups, Choices(c.positionals[i].choices))];
        }
        i := i + 1;
      }
      assert c.positionals[..i] == c.positionals;
    }
  }

  /** The same with the list grown in a loop. */
  method FishLines(c: Command, path: seq<string>, groups: seq<string>) returns (lines: Option<seq<Row>>)
    ensures lines == Lines(c, path, groups)
    decreases c
  {
    hide OwnRows;
    if |path| > 2 {
      return None;
    }
    var rows := OwnLines(c, path, groups);
    ghost var first := rows;
    NoChildren(c, path);
    assert c.children[..0] == [];
    var i := 0;
    while i < |c.children|
      invariant 0 <= i <= |c.children|
      invariant ChildLines(c, c.children[..i], path).Some? && rows == first + ChildLines(c, c.children[..i], path).value
    {
      var child := c.children[i];
      var below := FishLines(child, path + [child.name], []);
      ChildStep(c, i, path);
      if below.None? {
        OneChildTooDeep(c, c.children, path, i);
        return None;
      }
      rows := rows + below.value;
      i := i + 1;
    }
    assert c.children[..i] == c.children;
    lines := Some(rows);
  }

  lemma NoChildren(parent: Command, path: seq<string>)
    ensures ChildLines(parent, [], path) == Some([])
  {
  }

  lemma ChildStep(c: Command, i: nat, path: seq<string>)
    requires i < |c.children|
    ensures var before, last := ChildLines(c, c.children[..i], path), Lines(c.children[i], path + [c.children[i].name], []);
            ChildLines(c, c.children[..i + 1], path) ==
            if before.None? || last.None? then None else Some(before.value + last.value)
  {
    hide Lines;
    assert c.children[..i + 1][..i] == c.children[..i];
  }

  lemma {:induction false} OneChildTooDeep(parent: Command, children: seq<Command>, path: seq<string>, k: nat)
    requires forall i | 0 <= i < |children| :: children[i] < parent
    requires k < |children| && Lines(children[k], path + [children[k].name], []).None?
    ensures ChildLines(parent, children, path).None?
    decreases |children|
  {
    if k < |children| - 1 {
      OneChildTooDeep(parent, children[..|children| - 1], path, k);
    }
  }

  // ---------------------------------------------------------------- shared names

  predicate Below(c: Command, name: string) {
    exists i :: 0 <= i < |c.children| && (c.children[i].name == name || Below(c.children[i], name))
  }

  /** _descendant_names */
  method DescendantNames(c: Command) returns (names: set<string>)
    ensures forall name :: name in names <==> Below(c, name)
    decreases c
  {
    names := {};
    var i := 0;
    while i < |c.children|
      invariant 0 <= i <= |c.children|
      invariant forall name :: name in names <==> exists j :: 0 <= j < i && (c.children[j].name == name || Below(c.children[j], name))
    {
      var below := DescendantNames(c.children[i]);
      names := names + {c.children[i].name} + below;
      i := i + 1;
    }
  }

  predicate Holds(group: Command, name: string) {
    exists i :: 0 <= i < |group.children| && group.children[i].name == name
  }

  /** _fish_excluded */
  function Excluded(c: Command, commands: seq<Command>): seq<string> {
    if commands == [] then []
    else
      var last := commands[|commands| - 1];
      Excluded(c, commands[..|commands| - 1]) + (if last.name != c.name && Below(last, c.name) then [last.name] else [])
  }

  /** _fish_check_unambiguous: no two commands hold each other, nor one itself. */
  ghost predicate Unambiguous(commands: seq<Command>) {
    forall g, h | g in commands && h in commands && Holds(g, h.name) :: !Holds(h, g.name)
  }

  /** Sibling names differ, as keys of one mapping do. */
  ghost predicate DistinctNames(commands: seq<Command>) {
    && (forall i, j | 0 <= i < j < |commands| :: commands[i].name != commands[j].name)
    && forall i | 0 <= i < |commands| :: DistinctNames(commands[i].children)
  }

  /** Two top-level commands hold each other, or it is one that holds itself. */
  ghost predicate Clash(commands: seq<Command>, g: Command, h: Command) {
    && g in commands && h in commands
    && (exists c :: c in g.children && c.name == h.name) && (exists c :: c in h.children && c.name == g.name)
  }

  function ChildNames(c: Command): set<string> {
    set k | k in c.children :: k.name
  }

  /** _fish_check_unambiguous, as its loops test it. */
  method CheckUnambiguous(commands: seq<Command>) returns (ok: bool)
    requires DistinctNames(commands)
    ensures ok <==> forall g, h :: !Clash(commands, g, h)
  {
    hide ChildNames, DistinctNames, Clash;
    var held: map<string, set<string>> := map[];
    var i := 0;
    while i < |commands|
      invariant 0 <= i <= |commands|
      invariant forall name | name in held :: exists k :: 0 <= k < i && commands[k].name == name
      invariant forall k | 0 <= k < i :: commands[k].name in held && held[commands[k].name] == ChildNames(commands[k])
    {
      NamesApart(commands, i);
      held := held[commands[i].name := ChildNames(commands[i])];
      i := i + 1;
    }
    i := 0;
    while i < |commands|
      invariant 0 <= i <= |commands|
      invariant forall h, k | 0 <= k < i :: !Clash(commands, commands[k], h)
    {
      var group := commands[i];
      var j := 0;
      while j < |group.children|
        invariant 0 <= j <= |group.children|
        invariant forall k, l | 0 <= k < |commands| && 0 <= l < j && commands[k].name == group.children[l].name ::
                    group.name !in ChildNames(commands[k])
      {
        var name := group.children[j].name;
        if name in held && group.name in held[name] {
          var k :| 0 <= k < |commands| && commands[k].name == name;
          HeldClash(commands, group, j, k);
          return false;
        }
        j := j + 1;
      }
      NoClashFrom(commands, group);
      i := i + 1;
    }
    AllChecked(commands);
    return true;
  }

  lemma NamesApart(commands: seq<Command>, i: nat)
    requires DistinctNames(commands) && i < |commands|
    ensures forall k | 0 <= k < i :: commands[k].name != commands[i].name
  {
  }

  lemma HeldClash(commands: seq<Command>, group: Command, j: nat, k: nat)
    requires group in commands && j < |group.children| && k < |commands|
    requires commands[k].name == group.children[j].name && group.name in ChildNames(commands[k])
    ensures Clash(commands, group, commands[k])
  {
    assert group.children[j] in group.children;
  }

  lemma NoClashFrom(commands: seq<Command>, group: Command)
    requires forall k, l | 0 <= k < |commands| && 0 <= l < |group.children| && commands[k].name == group.children[l].name ::
               group.name !in ChildNames(commands[k])
    ensures forall h :: !Clash(commands, group, h)
  {
  }

  lemma AllChecked(commands: seq<Command>)
    requires forall h, k | 0 <= k < |commands| :: !Clash(commands, commands[k], h)
    ensures forall g, h :: !Clash(commands, g, h)
  {
    forall g, h ensures !Clash(commands, g, h) {
      if g in commands {
        var k :| 0 <= k < |commands| && commands[k] == g;
        assert !Clash(commands, commands[k], h);
      }
    }
  }

  /** The subcommand rows of the script. */
  function ScriptRows(all: seq<Command>, commands: seq<Command>): Option<seq<Row>> {
    if commands == [] then Some([])
    else
      var n := |commands| - 1;
      var before := ScriptRows(all, commands[..n]);
      var last := Lines(commands[n], [commands[n].name], Excluded(commands[n], all));
      if before.None? || last.None? then None else Some(before.value + last.value)
  }

  datatype Script = Ambiguous | TooDeep | Rows(rows: seq<Row>)

  /** _fish: its checks, then the subcommand rows of each command in turn. */
  ghost function Fish(commands: seq<Command>): Script {
    if !Unambiguous(commands) then Ambiguous
    else
      var rows := ScriptRows(commands, commands);
      if rows.None? then TooDeep else Rows(rows.value)
  }

  lemma HoldsSome(g: Command, name: string)
    ensures Holds(g, name) <==> exists c :: c in g.children && c.name == name
  {
    if c :| c in g.children && c.name == name {
      var i :| 0 <= i < |g.children| && g.children[i] == c;
    }
    if Holds(g, name) {
      var i :| 0 <= i < |g.children| && g.children[i].name == name;
      assert g.children[i] in g.children;
    }
  }

  lemma UnambiguousIff(commands: seq<Command>)
    ensures Unambiguous(commands) <==> forall g, h :: !Clash(commands, g, h)
  {
    hide Holds;
    forall g: Command, h: Command ensures (Holds(g, h.name) && Holds(h, g.name) && g in commands && h in commands) <==> Clash(commands, g, h) {
      HoldsSome(g, h.name);
      HoldsSome(h, g.name);
    }
  }

  /** A script is refused for a clash, or else for a third level, and for nothing else:
      names shared in any other way are accepted. */
  lemma FishAnswers(commands: seq<Command>)
    ensures Fish(commands) == Ambiguous <==> exists g, h :: Clash(commands, g, h)
    ensures Fish(commands) == TooDeep <==>
              (forall g, h :: !Clash(commands, g, h)) && exists g, c :: g in commands && c in g.children && c.children != []
  {
    UnambiguousIff(commands);
    TooDeepIff(commands, commands);
    hide Unambiguous, Clash, ScriptRows;
  }

  /** A group may hold a command named like another top-level one. */
  lemma SharedNameAccepted(a: string, b: string, c: string)
    requires a != b && a != c && b != c
    ensures var group, other := Command(a, [], [], [Command(b, [], [], []), Command(c, [], [], [])]), Command(b, [], [], []);
            Holds(group, other.name) && Fish([group, other]).Rows?
  {
    hide Fish, Unambiguous, Below, Lines;
    var group, other := Command(a, [], [], [Command(b, [], [], []), Command(c, [], [], [])]), Command(b, [], [], []);
    var commands := [group, other];
    assert group.children[0].name == b;
    FishAnswers(commands);
    forall g, h ensures !Clash(commands, g, h) {
    }
  }

  /** Refused exactly when some command lies three levels down. */
  lemma {:induction false} TooDeepIff(all: seq<Command>, commands: seq<Command>)
    ensures ScriptRows(all, commands).None? <==> exists g, c :: g in commands && c in g.children && c.children != []
  {
    if commands != [] {
      var n := |commands| - 1;
      TooDeepIff(all, commands[..n]);
      assert commands == commands[..n] + [commands[n]];
      var g := commands[n];
      GroupTooDeepIff(g, g.children, [g.name]);
    }
  }

  lemma {:induction false} GroupTooDeepIff(g: Command, children: seq<Command>, path: seq<string>)
    requires |path| == 1 && forall i | 0 <= i < |children| :: children[i] < g
    ensures ChildLines(g, children, path).None? <==> exists c :: c in children && c.children != []
    decreases |children|
  {
    if children != [] {
      var n := |children| - 1;
      var c := children[n];
      GroupTooDeepIff(g, children[..n], path);
      assert children == children[..n] + [c];
      if c.children == [] {
        assert ChildLines(c, [], path + [c.name]).Some?;
      } else {
        OneChildTooDeep(c, c.children, path + [c.name], 0);
      }
    }
  }

  // ---------------------------------------------------------------- what fires

  predicate Fires(words: set<string>, r: Row) {
    (forall w | w in r.allOf :: w in words) && (forall w | w in r.noneOf :: w !in words)
  }

  function Fired(words: set<string>, rows: seq<Row>): seq<Row> {
    if rows == [] then []
    else
      var last := rows[|rows| - 1];
      Fired(words, rows[..|rows| - 1]) + (if Fires(words, last) then [last] else [])
  }

  lemma {:induction false} FiredConcat(words: set<string>, a: seq<Row>, b: seq<Row>)
    ensures Fired(words, a + b) == Fired(words, a) + Fired(words, b)
    decreases |b|
  {
    if b == [] {
      assert a + b == a;
    } else {
      assert (a + b)[..|a + b| - 1] == a + b[..|b| - 1];
      FiredConcat(words, a, b[..|b| - 1]);
    }
  }

  lemma {:induction false} FiredAlike(words: set<string>, rows: seq<Row>, all: bool)
    requires forall i | 0 <= i < |rows| :: Fires(words, rows[i]) == all
    ensures Fired(words, rows) == if all then rows else []
  {
    hide Fires;
    if rows != [] {
      FiredAlike(words, rows[..|rows| - 1], all);
    }
  }

  /** Every row of one command tests its path, and its groups, and a group's children. */
  lemma {:induction false} OwnGuards(c: Command, path: seq<string>, groups: seq<string>)
    requires PlainGroups(c)
    ensures forall i | 0 <= i < |OwnRows(c, path, groups)| ::
              var r := OwnRows(c, path, groups)[i];
              r.allOf == path && r.noneOf == if c.children == [] then groups else Names(c.children) + groups
  {
    OptionGuards(c.options, path, groups);
    ChoiceGuards(c.positionals, path, groups);
  }

  lemma {:induction false} OptionGuards(options: seq<Flag>, path: seq<string>, groups: seq<string>)
    ensures forall i | 0 <= i < |OptionRows(options, path, groups)| ::
              OptionRows(options, path, groups)[i].allOf == path && OptionRows(options, path, groups)[i].noneOf == groups
  {
    if options != [] { OptionGuards(options[..|options| - 1], path, groups); }
  }

  lemma {:induction false} ChoiceGuards(positionals: seq<Positional>, path: seq<string>, groups: seq<string>)
    ensures forall i | 0 <= i < |ChoiceRows(positionals, path, groups)| ::
              ChoiceRows(positionals, path, groups)[i].allOf == path && ChoiceRows(positionals, path, groups)[i].noneOf == groups
  {
    if positionals != [] { ChoiceGuards(positionals[..|positionals| - 1], path, groups); }
  }

  /** Whether a command's own rows fire is one question for all of them. */
  ghost predicate On(words: set<string>, c: Command, path: seq<string>, groups: seq<string>) {
    && (forall w | w in path :: w in words) && (forall w | w in groups :: w !in words)
    && (forall i | 0 <= i < |c.children| :: c.children[i].name !in words)
  }

  lemma OwnFire(words: set<string>, c: Command, path: seq<string>, groups: seq<string>)
    requires PlainGroups(c)
    ensures Fired(words, OwnRows(c, path, groups)) == if On(words, c, path, groups) then OwnRows(c, path, groups) else []
  {
    OwnGuards(c, path, groups);
    var rows := OwnRows(c, path, groups);
    var names := Names(c.children);
    assert forall w | w in groups :: w in names + groups;
    assert forall i | 0 <= i < |c.children| :: names[i] == c.children[i].name && names[i] in names + groups;
    forall i | 0 <= i < |rows| ensures Fires(words, rows[i]) == On(words, c, path, groups) {
    }
    FiredAlike(words, rows, On(words, c, path, groups));
  }

  // ---------------------------------------------------------------- what should be offered

  function OptionOffers(options: seq<Flag>): seq<Offer> {
    if options == [] then [] else OptionOffers(options[..|options| - 1]) + [OptionFlag(options[|options| - 1])]
  }

  function ChoiceOffers(positionals: seq<Positional>): seq<Offer> {
    if positionals == [] then []
    else
      var last := positionals[|positionals| - 1];
      ChoiceOffers(positionals[..|positionals| - 1]) + (if last.choices == [] then [] else [Choices(last.choices)])
  }

  /** A group's children; a leaf's options, and the words its positionals choose from. */
  function OwnOffers(c: Command): seq<Offer> {
    if c.children != [] then [Children(Names(c.children))] else OptionOffers(c.options) + ChoiceOffers(c.positionals)
  }

  lemma {:induction false} OptionOffersAre(options: seq<Flag>, offer: Offer)
    ensures offer in OptionOffers(options) <==> offer.OptionFlag? && offer.option in options
  {
    if options != [] {
      OptionOffersAre(options[..|options| - 1], offer);
      assert options == options[..|options| - 1] + [options[|options| - 1]];
    }
  }

  lemma {:induction false} ChoiceOffersAre(positionals: seq<Positional>, offer: Offer)
    ensures offer in ChoiceOffers(positionals) <==>
            offer.Choices? && offer.words != [] && exists p :: p in positionals && p.choices == offer.words
  {
    if positionals != [] {
      var n := |positionals| - 1;
      ChoiceOffersAre(positionals[..n], offer);
      assert positionals == positionals[..n] + [positionals[n]];
    }
  }

  /** A group offers its children's names and nothing else; any other command its
      options and the choices of its positionals that have some. */
  lemma OffersAre(c: Command, offer: Offer)
    ensures offer in OwnOffers(c) <==>
            match offer
            case Children(names) =>
              c.children != [] && |names| == |c.children| && forall i | 0 <= i < |names| :: names[i] == c.children[i].name
            case OptionFlag(o) => c.children == [] && o in c.options
            case Choices(words) => c.children == [] && words != [] && exists p :: p in c.positionals && p.choices == words
  {
    OptionOffersAre(c.options, offer);
    ChoiceOffersAre(c.positionals, offer);
    if c.children == [] {
      assert OwnOffers(c) == OptionOffers(c.options) + ChoiceOffers(c.positionals);
    } else if offer.Children? && |offer.names| == |c.children| && forall i | 0 <= i < |offer.names| :: offer.names[i] == c.children[i].name {
      assert offer.names == Names(c.children);
    }
    hide OptionOffers, ChoiceOffers;
  }

  function Offers(rows: seq<Row>): seq<Offer> {
    seq(|rows|, i requires 0 <= i < |rows| => rows[i].offer)
  }

  lemma OffersConcat(a: seq<Row>, b: seq<Row>)
    ensures Offers(a + b) == Offers(a) + Offers(b)
  {
  }

  lemma {:induction false} OptionRowOffers(options: seq<Flag>, path: seq<string>, groups: seq<string>)
    ensures Offers(OptionRows(options, path, groups)) == OptionOffers(options)
  {
    if options != [] { OptionRowOffers(options[..|options| - 1], path, groups); }
  }

  lemma {:induction false} ChoiceRowOffers(positionals: seq<Positional>, path: seq<string>, groups: seq<string>)
    ensures Offers(ChoiceRows(positionals, path, groups)) == ChoiceOffers(positionals)
  {
    if positionals != [] { ChoiceRowOffers(positionals[..|positionals| - 1], path, groups); }
  }

  lemma OwnRowsOffer(c: Command, path: seq<string>, groups: seq<string>)
    requires PlainGroups(c)
    ensures Offers(OwnRows(c, path, groups)) == OwnOffers(c)
  {
    OptionRowOffers(c.options, path, groups);
    ChoiceRowOffers(c.positionals, path, groups);
  }

  // ---------------------------------------------------------------- the theorem

  /** A command that is allowed two levels down is a leaf. */
  lemma LeafLines(c: Command, path: seq<string>)
    requires |path| == 2 && Lines(c, path, []).Some?
    ensures c.children == [] && Lines(c, path, []) == Some(OwnRows(c, path, []))
  {
    hide OwnRows;
    if c.children == [] {
      assert OwnRows(c, path, []) + [] == OwnRows(c, path, []);
    } else {
      OneChildTooDeep(c, c.children, path, 0);
    }
  }

  lemma LastChild(parent: Command, children: seq<Command>, path: seq<string>)
    requires children != [] && (forall i | 0 <= i < |children| :: children[i] < parent) && ChildLines(parent, children, path).Some?
    ensures var n := |children| - 1;
            var before, last := ChildLines(parent, children[..n], path), Lines(children[n], path + [children[n].name], []);
            before.Some? && last.Some? && ChildLines(parent, children, path).value == before.value + last.value
  {
    hide Lines;
  }

  /** What the rows below a group fire: the rows of the one child that is on, if any. */
  lemma {:induction false} ChildrenFire(words: set<string>, parent: Command, children: seq<Command>, path: seq<string>, pick: Option<nat>)
    requires |path| == 1 && (forall i | 0 <= i < |children| :: children[i] < parent && PlainGroups(children[i]))
    requires ChildLines(parent, children, path).Some?
    requires pick.Some? ==> pick.value < |children|
    requires forall i | 0 <= i < |children| :: On(words, children[i], path + [children[i].name], []) <==> pick == Some(i)
    ensures Fired(words, ChildLines(parent, children, path).value) ==
            if pick.None? then [] else OwnRows(children[pick.value], path + [children[pick.value].name], [])
    decreases |children|
  {
    hide On, OwnRows, Lines, PlainGroups, Fired;
    if children == [] {
      NoChildren(parent, path);
      NothingFires(words);
    } else {
      var n := |children| - 1;
      var c := children[n];
      LastChild(parent, children, path);
      LeafLines(c, path + [c.name]);
      ChildrenFire(words, parent, children[..n], path, if pick == Some(n) then None else pick);
      OwnFire(words, c, path + [c.name], []);
      FiredConcat(words, ChildLines(parent, children[..n], path).value, Lines(c, path + [c.name], []).value);
    }
  }

  lemma NothingFires(words: set<string>)
    ensures Fired(words, []) == []
  {
  }

  /** What one top-level command's rows, and those below it, fire. */
  lemma CommandFires(words: set<string>, c: Command, groups: seq<string>, pick: Option<nat>)
    requires PlainGroups(c) && Lines(c, [c.name], groups).Some?
    requires pick.Some? ==> pick.value < |c.children|
    requires forall i | 0 <= i < |c.children| :: On(words, c.children[i], [c.name] + [c.children[i].name], []) <==> pick == Some(i)
    ensures Fired(words, Lines(c, [c.name], groups).value) ==
            (if On(words, c, [c.name], groups) then OwnRows(c, [c.name], groups) else [])
            + (if pick.None? then [] else OwnRows(c.children[pick.value], [c.name] + [c.children[pick.value].name], []))
  {
    hide On, OwnRows;
    ChildrenFire(words, c, c.children, [c.name], pick);
    OwnFire(words, c, [c.name], groups);
    FiredConcat(words, OwnRows(c, [c.name], groups), ChildLines(c, c.children, [c.name]).value);
  }

  /** The path to a command: a top-level one, or a child of a group. */
  datatype Place = Top(g: nat) | Inside(g: nat, k: nat)

  predicate IsPlace(commands: seq<Command>, at: Place) {
    at.g < |commands| && (at.Inside? ==> at.k < |commands[at.g].children|)
  }

  function CommandAt(commands: seq<Command>, at: Place): Command
    requires IsPlace(commands, at)
  {
    if at.Top? then commands[at.g] else commands[at.g].children[at.k]
  }

  function PathTo(commands: seq<Command>, at: Place): seq<string>
    requires IsPlace(commands, at)
  {
    [commands[at.g].name] + (if at.Top? then [] else [commands[at.g].children[at.k].name])
  }

  /** Of all the command words there are, the line has exactly those of the path. */
  ghost predicate OnlyThePath(commands: seq<Command>, words: set<string>, at: Place)
    requires IsPlace(commands, at)
  {
    forall i | 0 <= i < |commands| ::
      && (commands[i].name in words <==> commands[i].name in PathTo(commands, at))
      && forall name | Holds(commands[i], name) :: name in words <==> name in PathTo(commands, at)
  }

  lemma {:induction false} ExcludedAre(c: Command, commands: seq<Command>, w: string)
    ensures w in Excluded(c, commands) <==> w != c.name && exists h :: h in commands && h.name == w && Below(h, c.name)
  {
    if commands != [] {
      var n := |commands| - 1;
      ExcludedAre(c, commands[..n], w);
      assert commands == commands[..n] + [commands[n]];
    }
  }

  /** Nothing holds itself, and of two commands at most one holds the other. */
  lemma HoldsOneWay(commands: seq<Command>, g: Command, h: Command)
    requires Unambiguous(commands) && g in commands && h in commands
    ensures !(Holds(g, h.name) && Holds(h, g.name)) && !Holds(g, g.name)
  {
  }

  lemma SameName(commands: seq<Command>, i: nat, j: nat)
    requires DistinctNames(commands) && i < |commands| && j < |commands|
    ensures commands[i].name == commands[j].name <==> i == j
  {
  }

  lemma ChildIsHeld(c: Command, j: nat)
    requires j < |c.children|
    ensures Holds(c, c.children[j].name) && Below(c, c.children[j].name)
  {
  }

  /** A top-level command's own rows are on exactly when the path ends there. */
  lemma TopOn(commands: seq<Command>, words: set<string>, at: Place, i: nat)
    requires IsPlace(commands, at) && OnlyThePath(commands, words, at) && i < |commands|
    requires Unambiguous(commands) && DistinctNames(commands)
    ensures On(words, commands[i], [commands[i].name], Excluded(commands[i], commands)) <==> at == Top(i)
  {
    var c, g := commands[i], commands[at.g];
    hide Excluded, Unambiguous, DistinctNames, Holds, Below;
    SameName(commands, i, at.g);
    HoldsOneWay(commands, g, g);
    var groups := Excluded(c, commands);
    if at == Top(i) {
      forall w | w in groups ensures w !in words {
        ExcludedAre(c, commands, w);
      }
      forall j | 0 <= j < |c.children| ensures c.children[j].name !in words {
        ChildIsHeld(c, j);
      }
    } else if at.Inside? {
      ChildIsHeld(g, at.k);
      if i != at.g && c.name in words {
        ExcludedAre(c, commands, g.name);
        assert g.name in groups && g.name in words;
      }
    }
  }

  /** A child's rows are on exactly when the path ends at that child. */
  lemma ChildOn(commands: seq<Command>, words: set<string>, at: Place, i: nat, j: nat)
    requires IsPlace(commands, at) && OnlyThePath(commands, words, at) && i < |commands| && j < |commands[i].children|
    requires Unambiguous(commands) && DistinctNames(commands)
    requires at.Inside? ==> CommandAt(commands, at).children == []
    ensures var c := commands[i]; On(words, c.children[j], [c.name] + [c.children[j].name], []) <==> at == Inside(i, j)
  {
    var c, d, g := commands[i], commands[i].children[j], commands[at.g];
    assert DistinctNames(c.children);
    SameName(commands, i, at.g);
    ChildIsHeld(c, j);
    HoldsOneWay(commands, c, g);
    HoldsOneWay(commands, g, c);
    if at.Inside? {
      ChildIsHeld(g, at.k);
      if i == at.g { SameName(c.children, j, at.k); }
    }
    hide DistinctNames, Unambiguous, Holds, Below;
    var path := [c.name] + [d.name];
    assert (forall w | w in path :: w in words) <==> c.name in words && d.name in words by {
      assert path[0] == c.name && path[1] == d.name;
    }
  }

  /** So the rows of one top-level command and of those below it offer, on that
      line, the path's command or nothing. */
  lemma CommandOffers(commands: seq<Command>, words: set<string>, at: Place, i: nat)
    requires IsPlace(commands, at) && OnlyThePath(commands, words, at) && i < |commands|
    requires Unambiguous(commands) && DistinctNames(commands) && PlainGroups(commands[i])
    requires Lines(commands[i], [commands[i].name], Excluded(commands[i], commands)).Some?
    requires at.Inside? ==> CommandAt(commands, at).children == []
    ensures Offers(Fired(words, Lines(commands[i], [commands[i].name], Excluded(commands[i], commands)).value)) ==
            if at.g == i then OwnOffers(CommandAt(commands, at)) else []
  {
    hide On, OwnRows, Lines, Excluded, Unambiguous, DistinctNames, OnlyThePath, OwnOffers, Fired, Offers;
    var c := commands[i];
    TopOn(commands, words, at, i);
    forall j | 0 <= j < |c.children|
      ensures On(words, c.children[j], [c.name] + [c.children[j].name], []) <==> at == Inside(i, j)
    {
      ChildOn(commands, words, at, i, j);
    }
    var groups := Excluded(c, commands);
    var pick := if at.Inside? && at.g == i then Some(at.k) else None;
    CommandFires(words, c, groups, pick);
    var own := if On(words, c, [c.name], groups) then OwnRows(c, [c.name], groups) else [];
    var below := if pick.None? then [] else OwnRows(c.children[pick.value], [c.name] + [c.children[pick.value].name], []);
    OffersConcat(own, below);
    NoOffers();
    if at == Top(i) { OwnRowsOffer(c, [c.name], groups); }
    if pick.Some? { OwnRowsOffer(c.children[at.k], [c.name] + [c.children[at.k].name], []); }
    assert Offers(own) + [] == Offers(own) && [] + Offers(below) == Offers(below);
  }

  lemma NoOffers()
    ensures Offers([]) == []
  {
  }

  lemma {:induction false} PrefixFires(commands: seq<Command>, words: set<string>, at: Place, n: nat)
    requires IsPlace(commands, at) && OnlyThePath(commands, words, at) && n <= |commands|
    requires Unambiguous(commands) && DistinctNames(commands) && (forall i | 0 <= i < |commands| :: PlainGroups(commands[i]))
    requires ScriptRows(commands, commands[..n]).Some?
    requires at.Inside? ==> CommandAt(commands, at).children == []
    ensures Offers(Fired(words, ScriptRows(commands, commands[..n]).value)) == if at.g < n then OwnOffers(CommandAt(commands, at)) else []
  {
    hide Fired, Lines, Excluded, Unambiguous, DistinctNames, PlainGroups, OnlyThePath, OwnOffers;
    if n > 0 {
      var i: nat := n - 1;
      var c := commands[i];
      assert commands[..n][..i] == commands[..i];
      PrefixFires(commands, words, at, i);
      CommandOffers(commands, words, at, i);
      var before, here := ScriptRows(commands, commands[..i]).value, Lines(c, [c.name], Excluded(c, commands)).value;
      FiredConcat(words, before, here);
      OffersConcat(Fired(words, before), Fired(words, here));
    } else {
      NothingFires(words);
    }
  }

  /** The script's rows that fire on a line whose only command words lead to one
      command offer that command's own words and nothing else. */
  lemma OnlyItsOwnRowsFire(commands: seq<Command>, words: set<string>, at: Place)
    requires Fish(commands).Rows? && DistinctNames(commands) && (forall i | 0 <= i < |commands| :: PlainGroups(commands[i]))
    requires IsPlace(commands, at) && OnlyThePath(commands, words, at)
    ensures Offers(Fired(words, Fish(commands).rows)) == OwnOffers(CommandAt(commands, at))
  {
    if at.Inside? {
      TooDeepIff(commands, commands);
      var g := commands[at.g];
      assert g in commands && g.children[at.k] in g.children;
    }
    assert commands[..|commands|] == commands;
    PrefixFires(commands, words, at, |commands|);
  }

  /** Why two groups that hold each other are refused: on the line of one's child
      the other's child of the same two words is on as well. */
  lemma MutualHoldersClash(g: Command, h: Command, i: nat, j: nat, words: set<string>)
    requires i < |g.children| && g.children[i].name == h.name && g.children[i].children == []
    requires j < |h.children| && h.children[j].name == g.name && h.children[j].children == []
    ensures On(words, g.children[i], [g.name] + [h.name], []) <==> On(words, h.children[j], [h.name] + [g.name], [])
    ensures On({g.name, h.name}, h.children[j], [h.name] + [g.name], [])
  {
    var a, b := [g.name] + [h.name], [h.name] + [g.name];
    assert a[0] == g.name && a[1] == h.name && b[0] == h.name && b[1] == g.name;
    assert forall w :: w in a <==> w in b;
  }
}
