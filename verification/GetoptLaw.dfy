/** What command lines mean, said from the side of whoever writes them: a list of options with their
    arguments, and other words between them, is rendered into arguments, and the scan of these
    arguments reports just these options. No step of the scanner is named in the meaning. */
module GetoptLaw {
  import opened Common
  import opened Getopt

  // ----- Declarations -----

  /** Letter `k` of the option letters declares `c`: with an argument if a colon follows, with one that
      may be missing if two do. */
  predicate DeclaredAt(shorts: string, c: char, has: HasArg, k: nat) {
    && k < |shorts| && shorts[k] == c && c !in shorts[..k]
    && var one := k + 1 < |shorts| && shorts[k + 1] == ':';
       var two := one && k + 2 < |shorts| && shorts[k + 2] == ':';
       has == if two then OptionalArgument else if one then RequiredArgument else NoArgument
  }

  ghost predicate Declared(cfg: Config, c: char, has: HasArg) {
    && c != ':' && c != '-'
    && (exists k: nat :: DeclaredAt(cfg.Shorts(), c, has, k) && !TakesLong(cfg, c, k))
  }

  /** `W;` takes a long option for its argument. */
  predicate TakesLong(cfg: Config, c: char, k: nat) {
    cfg.longOptions.Some? && c == 'W' && k + 1 < |cfg.Shorts()| && cfg.Shorts()[k + 1] == ';'
  }

  /** `W;` is among the option letters. */
  ghost predicate WDeclared(cfg: Config) {
    exists k: nat :: k < |cfg.Shorts()| && cfg.Shorts()[k] == 'W' && 'W' !in cfg.Shorts()[..k] && TakesLong(cfg, 'W', k)
  }

  predicate Undeclared(cfg: Config, c: char) {
    c != '-' && (c == ':' || c !in cfg.Shorts())
  }

  /** `name` is a proper beginning of the option's name; if `shortToo`, more than a single letter. */
  predicate Abbreviates(name: string, o: LongOption, shortToo: bool) {
    |name| < |o.name| && o.name[..|name|] == name && !(shortToo && |name| == 1)
  }

  predicate SameUse(x: LongOption, y: LongOption) {
    x.hasArg == y.hasArg && x.flag == y.flag && x.val == y.val
  }

  /** The name is that of option `m` and of none before, or it is no option's name but abbreviates option
      `m` first, and all others that it abbreviates are used alike. */
  ghost predicate Resolves(longs: seq<LongOption>, name: string, shortToo: bool, longOnly: bool, m: nat) {
    && m < |longs|
    && if longs[m].name == name then forall i | 0 <= i < m :: longs[i].name != name
       else
         && (forall i | 0 <= i < |longs| :: longs[i].name != name)
         && Abbreviates(name, longs[m], shortToo)
         && (forall i | 0 <= i < m :: !Abbreviates(name, longs[i], shortToo))
         && forall i | m < i < |longs| :: Abbreviates(name, longs[i], shortToo) ==> !longOnly && SameUse(longs[i], longs[m])
  }

  /** Two options that are not used alike are abbreviated, and none has the name. */
  ghost predicate Clashes(longs: seq<LongOption>, name: string, shortToo: bool, longOnly: bool) {
    && (forall i | 0 <= i < |longs| :: longs[i].name != name)
    && exists m, i | 0 <= m < i < |longs| ::
         && Abbreviates(name, longs[m], shortToo) && Abbreviates(name, longs[i], shortToo)
         && (forall j | 0 <= j < m :: !Abbreviates(name, longs[j], shortToo))
         && (longOnly || !SameUse(longs[i], longs[m]))
  }

  ghost predicate Unknown(longs: seq<LongOption>, name: string, shortToo: bool) {
    forall i | 0 <= i < |longs| :: longs[i].name != name && !Abbreviates(name, longs[i], shortToo)
  }

  /** A name is found, ambiguous or unknown. */
  lemma FindLongIff(longs: seq<LongOption>, name: string, shortToo: bool, longOnly: bool)
    ensures forall m: nat :: FindLong(longs, name, shortToo, longOnly) == Found(m) <==> Resolves(longs, name, shortToo, longOnly, m)
    ensures FindLong(longs, name, shortToo, longOnly) == Ambiguous <==> Clashes(longs, name, shortToo, longOnly)
    ensures FindLong(longs, name, shortToo, longOnly) == NoMatch <==> Unknown(longs, name, shortToo)
  {
    hide FindLong, Resolves, Clashes, Unknown;
    var r := FindLong(longs, name, shortToo, longOnly);
    WhatIsFound(longs, name, shortToo, longOnly);
    if Unknown(longs, name, shortToo) {
      UnknownIs(longs, name, shortToo, longOnly);
    }
    if Clashes(longs, name, shortToo, longOnly) {
      ClashIs(longs, name, shortToo, longOnly);
    }
    forall m: nat | Resolves(longs, name, shortToo, longOnly, m)
      ensures r == Found(m)
    {
      ResolvedIs(longs, name, shortToo, longOnly, m);
    }
  }

  lemma WhatIsFound(longs: seq<LongOption>, name: string, shortToo: bool, longOnly: bool)
    ensures match FindLong(longs, name, shortToo, longOnly)
            case Found(m) => Resolves(longs, name, shortToo, longOnly, m)
            case Ambiguous => Clashes(longs, name, shortToo, longOnly)
            case NoMatch => Unknown(longs, name, shortToo)
  {
    hide Partial, Abbreviates;
    PartialIs(longs, name, shortToo);
    var e, f := FirstExact(longs, name), FirstPartial(longs, name, shortToo);
    if e == |longs| && f < |longs| {
      if i :| f < i < |longs| && Rival(longs, name, shortToo, longOnly, f, i) {
        assert Abbreviates(name, longs[f], shortToo) && Abbreviates(name, longs[i], shortToo);
      } else {
        forall i | f < i < |longs| && Abbreviates(name, longs[i], shortToo)
          ensures !longOnly && SameUse(longs[i], longs[f])
        {
          assert !Rival(longs, name, shortToo, longOnly, f, i);
        }
      }
    }
  }

  lemma UnknownIs(longs: seq<LongOption>, name: string, shortToo: bool, longOnly: bool)
    requires Unknown(longs, name, shortToo)
    ensures FindLong(longs, name, shortToo, longOnly) == NoMatch
  {
    hide Partial, Abbreviates;
    PartialIs(longs, name, shortToo);
  }

  lemma ClashIs(longs: seq<LongOption>, name: string, shortToo: bool, longOnly: bool)
    requires Clashes(longs, name, shortToo, longOnly)
    ensures FindLong(longs, name, shortToo, longOnly) == Ambiguous
  {
    hide Partial, Abbreviates;
    PartialIs(longs, name, shortToo);
    var m, i :| 0 <= m < i < |longs|
      && Abbreviates(name, longs[m], shortToo) && Abbreviates(name, longs[i], shortToo)
      && (forall j | 0 <= j < m :: !Abbreviates(name, longs[j], shortToo))
      && (longOnly || !SameUse(longs[i], longs[m]));
    var f := FirstPartial(longs, name, shortToo);
    assert f == m && Rival(longs, name, shortToo, longOnly, f, i);
  }

  lemma ResolvedIs(longs: seq<LongOption>, name: string, shortToo: bool, longOnly: bool, m: nat)
    requires Resolves(longs, name, shortToo, longOnly, m)
    ensures FindLong(longs, name, shortToo, longOnly) == Found(m)
  {
    hide Partial, Abbreviates;
    PartialIs(longs, name, shortToo);
    if longs[m].name != name {
      var f := FirstPartial(longs, name, shortToo);
      assert f == m;
    }
  }

  lemma PartialIs(longs: seq<LongOption>, name: string, shortToo: bool)
    ensures forall i | 0 <= i < |longs| :: Partial(longs[i], name, shortToo) <==> Abbreviates(name, longs[i], shortToo)
  {
    forall i | 0 <= i < |longs|
      ensures Partial(longs[i], name, shortToo) <==> Abbreviates(name, longs[i], shortToo)
    {
      if name <= longs[i].name && |name| == |longs[i].name| {
        assert longs[i].name[..|name|] == longs[i].name;
      }
    }
  }

  /** What the first of the option letters, and the environment, say about other words. */
  lemma Modes(letters: string, longs: Option<seq<LongOption>>, posixly: bool, longOnly: bool)
    requires letters == "" || (letters[0] != '+' && letters[0] != '-')
    ensures var plain, plus, minus := Config(letters, longs, posixly, true, longOnly), Config("+" + letters, longs, posixly, true, longOnly), Config("-" + letters, longs, posixly, true, longOnly);
            && plain.Shorts() == plus.Shorts() == minus.Shorts() == letters
            && !plain.AllArgs() && (plain.Permute() <==> !posixly)
            && !plus.AllArgs() && !plus.Permute()
            && minus.AllArgs()
  {
    assert ("+" + letters)[1..] == letters && ("-" + letters)[1..] == letters;
  }

  // ----- Command lines -----

  /** The end of a cluster of letters: an option with its argument in the same word, in the next one, or
      left out; or `W` with a long option, in the same word or in the next one. */
  datatype Tail =
    | Nothing
    | Attached(c: char, arg: string)
    | Separate(c: char, arg: string)
    | Bare(c: char)
    | W(attached: bool, name: string, value: Option<string>, next: Option<string>)

  /** Long options begin with two dashes, or with one where there are no others: `--name`, `--name=value`,
      `--name next`. */
  datatype Item =
    | Word(w: string)
    | Cluster(letters: string, tail: Tail)
    | Long(oneDash: bool, name: string, value: Option<string>, next: Option<string>)

  function TailText(tail: Tail): string {
    match tail
    case Nothing => ""
    case Attached(c, arg) => [c] + arg
    case Separate(c, _) => [c]
    case Bare(c) => [c]
    case W(attached, name, value, _) => ['W'] + if attached then LongText(name, value) else ""
  }

  /** The words behind that of the cluster. */
  function TailArgs(tail: Tail): seq<string> {
    match tail
    case Separate(_, arg) => [arg]
    case W(attached, name, value, next) =>
      (if attached then [] else [LongText(name, value)]) + if next.None? then [] else [next.value]
    case _ => []
  }

  function LongText(name: string, value: Option<string>): string {
    if value.None? then name else name + "=" + value.value
  }

  function Render(item: Item): (r: seq<string>)
    ensures r != []
  {
    match item
    case Word(w) => [w]
    case Cluster(letters, tail) =>
      ["-" + (letters + TailText(tail))] + TailArgs(tail)
    case Long(oneDash, name, value, next) =>
      [(if oneDash then "-" else "--") + LongText(name, value)] + if next.None? then [] else [next.value]
  }

  /** Where one dash is enough for a long option, a cluster must not be taken for one. */
  ghost predicate NotLong(cfg: Config, text: string) {
    cfg.longOptions.Some? && cfg.flagLongOnly ==>
      && text != "" && text[0] != ':' && text[0] in cfg.Shorts()
      && forall name: string, rest: string | IsNamePart(text, name, rest) :: Unknown(cfg.longOptions.value, name, true)
  }

  /** `name` is what stands before the first '=', if there is one. */
  predicate IsNamePart(text: string, name: string, rest: string) {
    '=' !in name && text == name + rest && (rest == "" || rest[0] == '=')
  }

  /** A letter within a cluster. */
  ghost predicate LetterMeans(cfg: Config, c: char, e: Event) {
    || (Declared(cfg, c, NoArgument) && e == Event(c as int, None))
    || (Undeclared(cfg, c) && e == Event('?' as int, None))
  }

  ghost predicate TailMeans(cfg: Config, tail: Tail, es: seq<Event>) {
    match tail
    case Nothing => es == []
    case Attached(c, arg) =>
      arg != "" && (Declared(cfg, c, RequiredArgument) || Declared(cfg, c, OptionalArgument)) && es == [Event(c as int, Some(arg))]
    case Separate(c, arg) => Declared(cfg, c, RequiredArgument) && es == [Event(c as int, Some(arg))]
    case Bare(c) => Declared(cfg, c, OptionalArgument) && es == [Event(c as int, None)]
    case W(attached, name, value, next) =>
      && |es| == 1 && WDeclared(cfg) && cfg.longOptions.Some? && '=' !in name
      && (attached ==> LongText(name, value) != "")
      && NameMeans(cfg, false, name, value, next, es[0])
  }

  ghost predicate ClusterMeans(cfg: Config, letters: string, tail: Tail, es: seq<Event>)
    decreases |letters|
  {
    && NotLong(cfg, letters + TailText(tail))
    && if letters == "" then tail != Nothing && TailMeans(cfg, tail, es)
       else
         && es != [] && LetterMeans(cfg, letters[0], es[0])
         && if |letters| == 1 && tail == Nothing then |es| == 1 else ClusterMeans(cfg, letters[1..], tail, es[1..])
  }

  ghost predicate LongMeans(cfg: Config, oneDash: bool, name: string, value: Option<string>, next: Option<string>, e: Event) {
    && cfg.longOptions.Some? && '=' !in name
    && var text := LongText(name, value);
       && (if oneDash then cfg.flagLongOnly && text != "" && text[0] != '-' else text != "")
       && NameMeans(cfg, oneDash && text[0] != ':' && text[0] in cfg.Shorts(), name, value, next, e)
  }

  /** What a name means with the value behind its '=' and the word behind it. */
  ghost predicate NameMeans(cfg: Config, shortToo: bool, name: string, value: Option<string>, next: Option<string>, e: Event)
    requires cfg.longOptions.Some?
  {
    var longs := cfg.longOptions.value;
    || (exists m: nat :: Resolves(longs, name, shortToo, cfg.flagLongOnly, m) && OptionMeans(longs[m], value, next, e))
    || (next == None && e == Event('?' as int, None)
        && (Clashes(longs, name, shortToo, cfg.flagLongOnly) || (Unknown(longs, name, shortToo) && !shortToo)))
  }

  /** A long option that is found: its value, or 0 where that is stored, with its argument. */
  predicate OptionMeans(o: LongOption, value: Option<string>, next: Option<string>, e: Event) {
    var ret := if o.flag.Some? then 0 else o.val;
    match o.hasArg
    case NoArgument => next == None && e == if value.None? then Event(ret, None) else Event('?' as int, None)
    case OptionalArgument => next == None && e == Event(ret, value)
    case RequiredArgument => (value.None? <==> next.Some?) && e == Event(ret, if value.Some? then value else next)
  }

  /** What is reported for an item. Words are passed over, or reported as arguments of option 1. */
  ghost predicate Means(cfg: Config, item: Item, es: seq<Event>) {
    match item
    case Word(w) =>
      && !IsOption(w) && (cfg.AllArgs() || cfg.Permute())
      && es == if cfg.AllArgs() then [Event(1, Some(w))] else []
    case Cluster(letters, tail) => ClusterMeans(cfg, letters, tail, es)
    case Long(oneDash, name, value, next) => |es| == 1 && LongMeans(cfg, oneDash, name, value, next, es[0])
  }

  function Arguments(items: seq<Item>): seq<string> {
    if items == [] then [] else Render(items[0]) + Arguments(items[1..])
  }

  function Flatten(es: seq<seq<Event>>): seq<Event> {
    if es == [] then [] else es[0] + Flatten(es[1..])
  }

  predicate PassedOver(cfg: Config, item: Item) {
    item.Word? && !cfg.AllArgs()
  }

  function Words(cfg: Config, items: seq<Item>): seq<string> {
    if items == [] then [] else (if PassedOver(cfg, items[0]) then Render(items[0]) else []) + Words(cfg, items[1..])
  }

  function Others(cfg: Config, items: seq<Item>): seq<string> {
    if items == [] then [] else (if PassedOver(cfg, items[0]) then [] else Render(items[0])) + Others(cfg, items[1..])
  }

  ghost predicate AllMean(cfg: Config, items: seq<Item>, es: seq<seq<Event>>) {
    |items| == |es| && forall k | 0 <= k < |items| :: Means(cfg, items[k], es[k])
  }

  /** How a command line ends: by itself, by `--`, by the first other word where these are not passed
      over, or by an option whose argument is missing. */
  datatype Ending =
    | AtEnd
    | Dashes(rest: seq<string>)
    | FirstWord(w: string, rest: seq<string>)
    | ShortMissing(letters: string, c: char)
    | LongMissing(oneDash: bool, name: string)

  ghost predicate Ends(cfg: Config, ending: Ending, args: seq<string>, es: seq<Event>, opts: seq<string>, rest: seq<string>) {
    match ending
    case AtEnd => args == [] && es == [] && opts == [] && rest == []
    case Dashes(behind) => args == ["--"] + behind && es == [] && opts == ["--"] && rest == behind
    case FirstWord(w, behind) =>
      && !IsOption(w) && !cfg.AllArgs() && !cfg.Permute()
      && args == [w] + behind && es == [] && opts == [] && rest == args
    case ShortMissing(letters, c) =>
      && args == ["-" + (letters + [c])] && opts == args && rest == []
      && MissingMeans(cfg, letters, c, es)
    case LongMissing(oneDash, name) =>
      && args == [(if oneDash then "-" else "--") + name] && opts == args && rest == []
      && cfg.longOptions.Some? && '=' !in name && name != ""
      && (oneDash ==> cfg.flagLongOnly && name[0] != '-')
      && var shortToo := oneDash && name[0] != ':' && name[0] in cfg.Shorts();
         exists m: nat :: Resolves(cfg.longOptions.value, name, shortToo, cfg.flagLongOnly, m)
                          && cfg.longOptions.value[m].hasArg == RequiredArgument && es == [Event(Missing(cfg), None)]
  }

  /** A colon in front of the option letters asks for a colon. */
  function Missing(cfg: Config): int {
    if |cfg.Shorts()| > 0 && cfg.Shorts()[0] == ':' then ':' as int else '?' as int
  }

  ghost predicate MissingMeans(cfg: Config, letters: string, c: char, es: seq<Event>)
    decreases |letters|
  {
    && NotLong(cfg, letters + [c])
    && if letters == "" then
         (Declared(cfg, c, RequiredArgument) || (c == 'W' && WDeclared(cfg))) && es == [Event(Missing(cfg), None)]
       else es != [] && LetterMeans(cfg, letters[0], es[0]) && MissingMeans(cfg, letters[1..], c, es[1..])
  }

  // ----- Letters -----

  lemma IndexOfDeclared(shorts: string, c: char, has: HasArg, k: nat)
    requires DeclaredAt(shorts, c, has, k)
    ensures IndexOf(shorts, c) == k
  {
  }

  lemma IndexOfUndeclared(shorts: string, c: char)
    requires c !in shorts
    ensures IndexOf(shorts, c) == |shorts|
  {
  }

  lemma NamePart(text: string) returns (name: string, rest: string)
    ensures IsNamePart(text, name, rest)
    ensures name == text[..IndexOf(text, '=')]
  {
    var k := IndexOf(text, '=');
    name, rest := text[..k], text[k..];
  }

  /** A cluster goes letter by letter. */
  lemma StepIsShort(cfg: Config, args: seq<string>, i: nat, place: string)
    requires i < |args| && place != "" && place[0] != '-' && NotLong(cfg, place)
    ensures OptionStep(cfg, args, i, place) == ShortStep(cfg, args, i, place)
  {
    hide FindLong, ShortStep, IndexOf, Config.Shorts, LongFound;
    if cfg.longOptions.Some? && cfg.flagLongOnly {
      var name, rest := NamePart(place);
      FindLongIff(cfg.longOptions.value, name, true, true);
      assert LongStep(cfg, cfg.longOptions.value, args, i, place, true).next == i;
    }
  }

  /** One letter that takes no argument, or is unknown. */
  lemma LetterStep(cfg: Config, args: seq<string>, i: nat, place: string, e: Event)
    requires i < |args| && place != "" && NotLong(cfg, place) && LetterMeans(cfg, place[0], e)
    ensures place[0] != '-'
    ensures OptionStep(cfg, args, i, place) == Some(Step(e, place[1..], if place[1..] == "" then i + 1 else i))
  {
    hide LongStep, IndexOf, Config.Shorts, NotLong;
    var c := place[0];
    StepIsShort(cfg, args, i, place);
    if c in cfg.Shorts() && c != ':' {
      var k: nat :| DeclaredAt(cfg.Shorts(), c, NoArgument, k)
        && !TakesLong(cfg, c, k);
      IndexOfDeclared(cfg.Shorts(), c, NoArgument, k);
    } else if c != ':' {
      IndexOfUndeclared(cfg.Shorts(), c);
    }
  }

  /** The option at the end of a cluster. */
  lemma TailStep(cfg: Config, args: seq<string>, i: nat, tail: Tail, es: seq<Event>)
    requires i < |args| && tail != Nothing && NotLong(cfg, TailText(tail)) && TailMeans(cfg, tail, es)
    requires i + 1 + |TailArgs(tail)| <= |args| && args[i + 1..i + 1 + |TailArgs(tail)|] == TailArgs(tail)
    ensures |es| == 1
    ensures OptionStep(cfg, args, i, TailText(tail)) == Some(Step(es[0], "", i + 1 + |TailArgs(tail)|))
  {
    if tail.W? {
      WStep(cfg, args, i, tail, es[0]);
    } else {
      LetterTailStep(cfg, args, i, tail, es);
    }
  }

  lemma LetterTailStep(cfg: Config, args: seq<string>, i: nat, tail: Tail, es: seq<Event>)
    requires i < |args| && tail != Nothing && !tail.W? && NotLong(cfg, TailText(tail)) && TailMeans(cfg, tail, es)
    requires i + 1 + |TailArgs(tail)| <= |args| && args[i + 1..i + 1 + |TailArgs(tail)|] == TailArgs(tail)
    ensures |es| == 1
    ensures OptionStep(cfg, args, i, TailText(tail)) == Some(Step(es[0], "", i + 1 + |TailArgs(tail)|))
  {
    hide LongStep, IndexOf, Config.Shorts, NotLong, Config.BadArg;
    var place, c := TailText(tail), tail.c;
    var has := if Declared(cfg, c, RequiredArgument) then RequiredArgument else OptionalArgument;
    assert place[0] == c && Declared(cfg, c, has);
    StepIsShort(cfg, args, i, place);
    var k: nat :| DeclaredAt(cfg.Shorts(), c, has, k) && !TakesLong(cfg, c, k);
    IndexOfDeclared(cfg.Shorts(), c, has, k);
    DeclaredOnce(cfg, c, has, k);
    if tail.Attached? {
      assert place[1..] == tail.arg;
    }
    if tail.Separate? {
      assert args[i + 1] == args[i + 1..i + 2][0] == tail.arg;
    }
  }

  lemma IndexOfW(cfg: Config)
    requires WDeclared(cfg)
    ensures var k := IndexOf(cfg.Shorts(), 'W');
            k < |cfg.Shorts()| && TakesLong(cfg, 'W', k)
  {
    hide Config.Shorts;
    var k: nat :| k < |cfg.Shorts()| && cfg.Shorts()[k] == 'W' && 'W' !in cfg.Shorts()[..k] && TakesLong(cfg, 'W', k);
    IndexOfDeclared(cfg.Shorts(), 'W', NoArgument, k);
  }

  lemma WStep(cfg: Config, args: seq<string>, i: nat, tail: Tail, e: Event)
    requires i < |args| && tail.W? && NotLong(cfg, TailText(tail)) && TailMeans(cfg, tail, [e])
    requires i + 1 + |TailArgs(tail)| <= |args| && args[i + 1..i + 1 + |TailArgs(tail)|] == TailArgs(tail)
    ensures OptionStep(cfg, args, i, TailText(tail)) == Some(Step(e, "", i + 1 + |TailArgs(tail)|))
  {
    hide LongStep, IndexOf, Config.Shorts, NotLong, Config.BadArg, NameMeans, WDeclared;
    var W(attached, name, value, next) := tail;
    var place, text := TailText(tail), LongText(name, value);
    StepIsShort(cfg, args, i, place);
    IndexOfW(cfg);
    assert args[i + 1..i + 1 + |TailArgs(tail)|] == TailArgs(tail);
    if attached {
      assert place[1..] == text;
      if next.Some? {
        assert args[i + 1] == TailArgs(tail)[0];
      }
      NameStep(cfg, args, i, false, name, value, next, e);
    } else {
      assert place[1..] == "";
      assert args[i + 1] == TailArgs(tail)[0];
      if next.Some? {
        assert args[i + 2] == TailArgs(tail)[1];
      }
      NameStep(cfg, args, i + 1, false, name, value, next, e);
    }
  }

  lemma DeclaredOnce(cfg: Config, c: char, has: HasArg, k: nat)
    requires DeclaredAt(cfg.Shorts(), c, has, k)
    ensures forall other :: Declared(cfg, c, other) ==> other == has
  {
    hide Config.Shorts;
    forall other | Declared(cfg, c, other)
      ensures other == has
    {
      var k': nat :| DeclaredAt(cfg.Shorts(), c, other, k');
      IndexOfDeclared(cfg.Shorts(), c, has, k);
      IndexOfDeclared(cfg.Shorts(), c, other, k');
    }
  }

  lemma MissingStep(cfg: Config, args: seq<string>, i: nat, c: char)
    requires i + 1 == |args| && NotLong(cfg, [c])
    requires Declared(cfg, c, RequiredArgument) || (c == 'W' && WDeclared(cfg))
    ensures OptionStep(cfg, args, i, [c]) == Some(Step(Event(Missing(cfg), None), "", i + 1))
  {
    hide LongStep, IndexOf, Config.Shorts, NotLong, WDeclared;
    StepIsShort(cfg, args, i, [c]);
    assert [c][1..] == "";
    BadArgIs(cfg);
    if Declared(cfg, c, RequiredArgument) {
      var k: nat :| DeclaredAt(cfg.Shorts(), c, RequiredArgument, k) && !TakesLong(cfg, c, k);
      IndexOfDeclared(cfg.Shorts(), c, RequiredArgument, k);
    } else {
      IndexOfW(cfg);
    }
  }

  lemma BadArgIs(cfg: Config)
    ensures cfg.BadArg() == Missing(cfg)
  {
  }

  // ----- Items -----

  function Prepend(es: seq<Event>, opts: seq<string>, r: Outcome): Outcome {
    r.(events := es + r.events, opts := opts + r.opts)
  }

  lemma PrependTwice(e: Event, es: seq<Event>, opts: seq<string>, r: Outcome)
    ensures Prepend([e], [], Prepend(es, opts, r)) == Prepend([e] + es, opts, r)
  {
    assert [e] + (es + r.events) == [e] + es + r.events;
    assert [] + (opts + r.opts) == opts + r.opts;
  }

  /** One step of the scan. */
  lemma ScanStep(cfg: Config, args: seq<string>, i: nat, place: string, s: Step)
    requires i < |args| && place != "" && OptionStep(cfg, args, i, place) == Some(s)
    ensures Scan(cfg, args, i, place) == Prepend([s.event], args[i..s.next], Scan(cfg, args, s.next, s.place))
  {
    hide OptionStep;
  }

  /** The beginning of an option. */
  lemma ScanDash(cfg: Config, args: seq<string>, i: nat)
    requires i < |args| && IsOption(args[i]) && args[i] != "--"
    ensures Scan(cfg, args, i, "") == Scan(cfg, args, i, args[i][1..])
  {
    hide OptionStep;
  }

  lemma {:induction false} ClusterScanned(cfg: Config, args: seq<string>, i: nat, letters: string, tail: Tail, es: seq<Event>)
    requires i < |args| && ClusterMeans(cfg, letters, tail, es)
    requires i + 1 + |TailArgs(tail)| <= |args| && args[i + 1..i + 1 + |TailArgs(tail)|] == TailArgs(tail)
    ensures letters + TailText(tail) != "" && (letters + TailText(tail))[0] != '-'
    ensures var next := i + 1 + |TailArgs(tail)|;
            Scan(cfg, args, i, letters + TailText(tail)) == Prepend(es, args[i..next], Scan(cfg, args, next, ""))
    decreases |letters|
  {
    hide Scan, NotLong, TailMeans, LetterMeans, Prepend, TailText, TailArgs;
    if letters == "" {
      assert "" + TailText(tail) == TailText(tail);
      TailScanned(cfg, args, i, tail, es);
    } else if |letters| == 1 && tail == Nothing {
      NoTail();
      assert letters + "" == letters;
      LastLetterScanned(cfg, args, i, letters, es);
    } else {
      assert (letters + TailText(tail))[1..] == letters[1..] + TailText(tail);
      ClusterScanned(cfg, args, i, letters[1..], tail, es[1..]);
      LetterScanned(cfg, args, i, letters + TailText(tail), es, i + 1 + |TailArgs(tail)|);
    }
  }

  lemma NoTail()
    ensures TailText(Nothing) == "" && TailArgs(Nothing) == []
  {
  }

  lemma TailScanned(cfg: Config, args: seq<string>, i: nat, tail: Tail, es: seq<Event>)
    requires i < |args| && tail != Nothing && NotLong(cfg, TailText(tail)) && TailMeans(cfg, tail, es)
    requires i + 1 + |TailArgs(tail)| <= |args| && args[i + 1..i + 1 + |TailArgs(tail)|] == TailArgs(tail)
    ensures TailText(tail) != "" && TailText(tail)[0] != '-'
    ensures var next := i + 1 + |TailArgs(tail)|;
            Scan(cfg, args, i, TailText(tail)) == Prepend(es, args[i..next], Scan(cfg, args, next, ""))
  {
    hide Scan, OptionStep, NotLong, TailMeans, TailText, TailArgs;
    TailStep(cfg, args, i, tail, es);
    TailNotDash(cfg, tail, es);
    ScanStep(cfg, args, i, TailText(tail), Step(es[0], "", i + 1 + |TailArgs(tail)|));
    assert es == [es[0]];
  }

  lemma LastLetterScanned(cfg: Config, args: seq<string>, i: nat, letter: string, es: seq<Event>)
    requires i < |args| && |letter| == 1 && |es| == 1 && NotLong(cfg, letter) && LetterMeans(cfg, letter[0], es[0])
    ensures letter[0] != '-'
    ensures Scan(cfg, args, i, letter) == Prepend(es, args[i..i + 1], Scan(cfg, args, i + 1, ""))
  {
    hide Scan, OptionStep, NotLong, LetterMeans;
    LetterStep(cfg, args, i, letter, es[0]);
    ScanStep(cfg, args, i, letter, Step(es[0], "", i + 1));
    assert es == [es[0]];
  }

  /** A letter before the rest of its cluster. */
  lemma LetterScanned(cfg: Config, args: seq<string>, i: nat, place: string, es: seq<Event>, next: nat)
    requires i < next <= |args| && |place| >= 2 && es != [] && NotLong(cfg, place) && LetterMeans(cfg, place[0], es[0])
    requires Scan(cfg, args, i, place[1..]) == Prepend(es[1..], args[i..next], Scan(cfg, args, next, ""))
    ensures place[0] != '-'
    ensures Scan(cfg, args, i, place) == Prepend(es, args[i..next], Scan(cfg, args, next, ""))
  {
    hide Scan, OptionStep, NotLong, LetterMeans;
    LetterStep(cfg, args, i, place, es[0]);
    ScanStep(cfg, args, i, place, Step(es[0], place[1..], i));
    PrependTwice(es[0], es[1..], args[i..next], Scan(cfg, args, next, ""));
    assert args[i..i] == [] && [es[0]] + es[1..] == es;
  }

  lemma TailNotDash(cfg: Config, tail: Tail, es: seq<Event>)
    requires tail != Nothing && TailMeans(cfg, tail, es)
    ensures TailText(tail) != "" && TailText(tail)[0] != '-'
  {
  }

  /** A long option, by the text behind its dashes. */
  lemma LongTextParts(name: string, value: Option<string>)
    requires '=' !in name
    ensures var text := LongText(name, value);
            var k := IndexOf(text, '=');
            k == |name| && text[..k] == name && (value.None? <==> k == |text|) && (value.Some? ==> text[k + 1..] == value.value)
  {
    var text := LongText(name, value);
    var k := IndexOf(text, '=');
    assert text[..|name|] == name && forall j | 0 <= j < |name| :: text[j] == name[j];
    assert value.Some? ==> text[|name|] == '=' && text[|name| + 1..] == value.value;
    assert forall j | 0 <= j < k :: text[..k][j] != '=';
  }

  lemma NameStep(cfg: Config, args: seq<string>, i: nat, shortToo: bool, name: string, value: Option<string>, next: Option<string>, e: Event)
    requires i < |args| && cfg.longOptions.Some? && '=' !in name && NameMeans(cfg, shortToo, name, value, next, e)
    requires next.Some? ==> i + 1 < |args| && args[i + 1] == next.value
    ensures LongStep(cfg, cfg.longOptions.value, args, i, LongText(name, value), shortToo)
            == Step(e, "", if next.Some? then i + 2 else i + 1)
  {
    hide FindLong, IndexOf, Config.Shorts, Config.BadArg, Resolves, Clashes, Unknown;
    LongTextParts(name, value);
    FindLongIff(cfg.longOptions.value, name, shortToo, cfg.flagLongOnly);
  }

  lemma LongStepIs(cfg: Config, args: seq<string>, i: nat, oneDash: bool, name: string, value: Option<string>, next: Option<string>, e: Event)
    requires i < |args| && LongMeans(cfg, oneDash, name, value, next, e)
    requires next.Some? ==> i + 1 < |args| && args[i + 1] == next.value
    ensures var text := LongText(name, value);
            OptionStep(cfg, args, i, if oneDash then text else "-" + text)
            == Some(Step(e, "", if next.Some? then i + 2 else i + 1))
  {
    hide LongStep, Config.Shorts, ShortStep, NameMeans;
    var text := LongText(name, value);
    if !oneDash {
      assert ("-" + text)[1..] == text;
    }
    NameStep(cfg, args, i, oneDash && text[0] != ':' && text[0] in cfg.Shorts(), name, value, next, e);
  }

  lemma LongMissingIs(cfg: Config, args: seq<string>, i: nat, oneDash: bool, name: string, m: nat)
    requires i + 1 == |args| && cfg.longOptions.Some? && '=' !in name && name != ""
    requires oneDash ==> cfg.flagLongOnly && name[0] != '-'
    requires Resolves(cfg.longOptions.value, name, oneDash && name[0] != ':' && name[0] in cfg.Shorts(), cfg.flagLongOnly, m)
    requires cfg.longOptions.value[m].hasArg == RequiredArgument
    ensures OptionStep(cfg, args, i, if oneDash then name else "-" + name) == Some(Step(Event(Missing(cfg), None), "", i + 1))
  {
    hide FindLong, IndexOf, Config.Shorts, ShortStep, Resolves;
    var longs := cfg.longOptions.value;
    var shortToo := oneDash && name[0] != ':' && name[0] in cfg.Shorts();
    LongTextParts(name, None);
    FindLongIff(longs, name, shortToo, cfg.flagLongOnly);
    if !oneDash {
      assert ("-" + name)[1..] == name;
    }
    assert LongStep(cfg, longs, args, i, name, shortToo) == Step(Event(Missing(cfg), None), "", i + 1);
  }

  /** One item at its place among the arguments. */
  lemma ItemScanned(cfg: Config, args: seq<string>, i: nat, item: Item, es: seq<Event>)
    requires i + |Render(item)| <= |args| && args[i..i + |Render(item)|] == Render(item) && Means(cfg, item, es)
    ensures var r := Scan(cfg, args, i + |Render(item)|, "");
            Scan(cfg, args, i, "")
            == if PassedOver(cfg, item) then r.(nons := Render(item) + r.nons) else Prepend(es, Render(item), r)
  {
    hide OptionStep, ClusterMeans, LongMeans, Config.AllArgs, Config.Permute, Scan;
    assert args[i] == Render(item)[0];
    match item
    case Word(w) => WordScanned(cfg, args, i);
    case Cluster(letters, tail) => {
      assert args[i + 1..i + 1 + |TailArgs(tail)|] == args[i..i + |Render(item)|][1..] == TailArgs(tail);
      ClusterScanned(cfg, args, i, letters, tail, es);
      ClusterWord(letters + TailText(tail));
      ScanDash(cfg, args, i);
    }
    case Long(oneDash, name, value, next) => {
      if next.Some? {
        assert args[i + 1] == Render(item)[1];
      }
      LongStepIs(cfg, args, i, oneDash, name, value, next, es[0]);
      LongWord(cfg, oneDash, name, value, next, es[0]);
      ScanDash(cfg, args, i);
      ScanStep(cfg, args, i, args[i][1..], Step(es[0], "", if next.Some? then i + 2 else i + 1));
      assert es == [es[0]];
    }
  }

  lemma WordScanned(cfg: Config, args: seq<string>, i: nat)
    requires i < |args| && !IsOption(args[i]) && (cfg.AllArgs() || cfg.Permute())
    ensures var r := Scan(cfg, args, i + 1, "");
            Scan(cfg, args, i, "")
            == if cfg.AllArgs() then Prepend([Event(1, Some(args[i]))], [args[i]], r) else r.(nons := [args[i]] + r.nons)
  {
    hide OptionStep, Config.AllArgs, Config.Permute;
  }

  lemma ClusterWord(text: string)
    requires text != "" && text[0] != '-'
    ensures var w := "-" + text; IsOption(w) && w != "--" && w[1..] == text
  {
    assert ("-" + text)[1] == text[0];
    assert ("-" + text)[1..] == text;
  }

  lemma LongWord(cfg: Config, oneDash: bool, name: string, value: Option<string>, next: Option<string>, e: Event)
    requires LongMeans(cfg, oneDash, name, value, next, e)
    ensures var text := LongText(name, value);
            var w := (if oneDash then "-" else "--") + text;
            IsOption(w) && w != "--" && w[1..] == if oneDash then text else "-" + text
  {
    hide NameMeans, Config.Shorts;
    DashWord(oneDash, LongText(name, value));
  }

  lemma DashWord(oneDash: bool, text: string)
    requires text != "" && (oneDash ==> text[0] != '-')
    ensures var w := (if oneDash then "-" else "--") + text;
            IsOption(w) && w != "--" && w[1..] == if oneDash then text else "-" + text
  {
    var w := (if oneDash then "-" else "--") + text;
    if oneDash {
      assert w[1] == text[0] && w[1..] == text;
    } else {
      assert |w| > 2 && w[1..] == "-" + text;
    }
  }

  // ----- The end -----

  lemma {:induction false} MissingScanned(cfg: Config, args: seq<string>, i: nat, letters: string, c: char, es: seq<Event>)
    requires i + 1 == |args| && MissingMeans(cfg, letters, c, es)
    ensures (letters + [c])[0] != '-'
    ensures Scan(cfg, args, i, letters + [c]) == Outcome(es, args[i..], [], [], false)
    decreases |letters|
  {
    hide Scan, OptionStep, NotLong, Declared, Undeclared;
    var place := letters + [c];
    ScanEnd(cfg, args);
    if letters == "" {
      assert place == [c];
      MissingStep(cfg, args, i, c);
      MissingNotDash(cfg, c);
      ScanStep(cfg, args, i, place, Step(Event(Missing(cfg), None), "", i + 1));
      assert args[i..i + 1] + [] == args[i..];
    } else {
      LetterStep(cfg, args, i, place, es[0]);
      assert place[1..] == letters[1..] + [c];
      MissingScanned(cfg, args, i, letters[1..], c, es[1..]);
      ScanStep(cfg, args, i, place, Step(es[0], place[1..], i));
      assert args[i..i] + args[i..] == args[i..] && [es[0]] + es[1..] == es;
    }
  }

  lemma MissingNotDash(cfg: Config, c: char)
    requires Declared(cfg, c, RequiredArgument) || (c == 'W' && WDeclared(cfg))
    ensures c != '-'
  {
  }

  lemma ScanEnd(cfg: Config, args: seq<string>)
    ensures Scan(cfg, args, |args|, "") == Outcome([], [], [], [], false)
  {
  }

  lemma EndScanned(cfg: Config, args: seq<string>, i: nat, ending: Ending, es: seq<Event>, opts: seq<string>, rest: seq<string>)
    requires i <= |args| && Ends(cfg, ending, args[i..], es, opts, rest)
    ensures Scan(cfg, args, i, "") == Outcome(es, opts, [], rest, false)
  {
    hide Scan, OptionStep, MissingMeans;
    if i < |args| {
      assert args[i..][0] == args[i];
    }
    match ending
    case AtEnd => ScanEnd(cfg, args);
    case Dashes(behind) => {
      assert args[i + 1..] == args[i..][1..] == behind;
      ScanDashes(cfg, args, i);
    }
    case FirstWord(w, behind) => ScanStops(cfg, args, i);
    case ShortMissing(letters, c) => {
      assert |args| == i + 1;
      MissingScanned(cfg, args, i, letters, c, es);
      ClusterWord(letters + [c]);
      ScanDash(cfg, args, i);
    }
    case LongMissing(oneDash, name) => {
      assert |args| == i + 1;
      var m: nat :| Resolves(cfg.longOptions.value, name, oneDash && name[0] != ':' && name[0] in cfg.Shorts(), cfg.flagLongOnly, m)
        && cfg.longOptions.value[m].hasArg == RequiredArgument;
      LongMissingIs(cfg, args, i, oneDash, name, m);
      DashWord(oneDash, name);
      ScanDash(cfg, args, i);
      ScanStep(cfg, args, i, args[i][1..], Step(Event(Missing(cfg), None), "", i + 1));
      ScanEnd(cfg, args);
      assert args[i..i + 1] + [] == args[i..];
    }
  }

  lemma ScanDashes(cfg: Config, args: seq<string>, i: nat)
    requires i < |args| && args[i] == "--"
    ensures Scan(cfg, args, i, "") == Outcome([], ["--"], [], args[i + 1..], false)
  {
    hide OptionStep;
  }

  lemma ScanStops(cfg: Config, args: seq<string>, i: nat)
    requires i < |args| && !IsOption(args[i]) && !cfg.AllArgs() && !cfg.Permute()
    ensures Scan(cfg, args, i, "") == Outcome([], [], [], args[i..], false)
  {
    hide OptionStep, Config.AllArgs, Config.Permute;
  }

  // ----- The law -----

  /** A command line is read as what it means: the options in order with their arguments, the words
      between them, and what is behind the end. */
  lemma {:induction false} RenderedIsScanned(cfg: Config, before: seq<string>, items: seq<Item>, es: seq<seq<Event>>,
                                             ending: Ending, last: seq<string>, lastEs: seq<Event>, lastOpts: seq<string>, rest: seq<string>)
    requires AllMean(cfg, items, es) && Ends(cfg, ending, last, lastEs, lastOpts, rest)
    ensures Scan(cfg, before + Arguments(items) + last, |before|, "")
            == Outcome(Flatten(es) + lastEs, Others(cfg, items) + lastOpts, Words(cfg, items), rest, false)
    decreases |items|
  {
    hide Scan, Means, Ends, Render;
    var args := before + Arguments(items) + last;
    if items == [] {
      assert args[|before|..] == last;
      EndScanned(cfg, args, |before|, ending, lastEs, lastOpts, rest);
      assert [] + lastEs == lastEs && [] + lastOpts == lastOpts;
    } else {
      var first := Render(items[0]);
      var before' := before + first;
      assert args == before' + Arguments(items[1..]) + last;
      RenderedIsScanned(cfg, before', items[1..], es[1..], ending, last, lastEs, lastOpts, rest);
      assert args[|before|..|before| + |first|] == first;
      ItemScanned(cfg, args, |before|, items[0], es[0]);
      NothingReported(cfg, items[0], es[0]);
      Joined(es[0], Flatten(es[1..]), lastEs);
      Joined(first, Others(cfg, items[1..]), lastOpts);
    }
  }

  lemma NothingReported(cfg: Config, item: Item, es: seq<Event>)
    requires Means(cfg, item, es)
    ensures PassedOver(cfg, item) ==> es == []
  {
  }

  lemma Joined<T>(a: seq<T>, b: seq<T>, c: seq<T>)
    ensures a + (b + c) == a + b + c && [] + b == b
  {
  }

  /** The same for a whole vector, behind the name of the program. */
  lemma CommandLine(cfg: Config, program: string, items: seq<Item>, es: seq<seq<Event>>,
                    ending: Ending, last: seq<string>, lastEs: seq<Event>, lastOpts: seq<string>, rest: seq<string>)
    requires AllMean(cfg, items, es) && Ends(cfg, ending, last, lastEs, lastOpts, rest)
    ensures Scan(cfg, [program] + Arguments(items) + last, 1, "")
            == Outcome(Flatten(es) + lastEs, Others(cfg, items) + lastOpts, Words(cfg, items), rest, false)
  {
    RenderedIsScanned(cfg, [program], items, es, ending, last, lastEs, lastOpts, rest);
  }

  /** An output format in front of a file, with the option letters of the library's tool. */
  lemma FormatAndFile(longs: seq<LongOption>)
    ensures Scan(Config("df:hvHV", Some(longs), false, true, false), ["matdump", "-f", "whos", "x.mat"], 1, "")
            == Outcome([Event('f' as int, Some("whos"))], ["-f", "whos"], ["x.mat"], [], false)
  {
    var cfg := Config("df:hvHV", Some(longs), false, true, false);
    var option, word := Cluster("", Separate('f', "whos")), Word("x.mat");
    hide Scan, Means, Render, Arguments, Flatten, Others, Words, Config.AllArgs;
    FormatMeans(cfg);
    TwoItems(cfg, option, word, [Event('f' as int, Some("whos"))], []);
    CommandLine(cfg, "matdump", [option, word], [[Event('f' as int, Some("whos"))], []], AtEnd, [], [], [], []);
    assert ["matdump"] + (["-f", "whos"] + ["x.mat"]) + [] == ["matdump", "-f", "whos", "x.mat"];
  }

  lemma FormatMeans(cfg: Config)
    requires cfg.options == "df:hvHV" && cfg.flagPermute && !cfg.posixlyCorrect && !cfg.flagLongOnly
    ensures Means(cfg, Cluster("", Separate('f', "whos")), [Event('f' as int, Some("whos"))]) && Means(cfg, Word("x.mat"), [])
    ensures Render(Cluster("", Separate('f', "whos"))) == ["-f", "whos"] && Render(Word("x.mat")) == ["x.mat"]
    ensures !cfg.AllArgs()
  {
    assert DeclaredAt(cfg.Shorts(), 'f', RequiredArgument, 1);
    assert "-" + ("" + ['f']) == "-f";
  }

  lemma TwoItems(cfg: Config, x: Item, y: Item, ex: seq<Event>, ey: seq<Event>)
    ensures Arguments([x, y]) == Render(x) + Render(y) && Flatten([ex, ey]) == ex + ey
    ensures Others(cfg, [x, y]) == (if PassedOver(cfg, x) then [] else Render(x)) + (if PassedOver(cfg, y) then [] else Render(y))
    ensures Words(cfg, [x, y]) == (if PassedOver(cfg, x) then Render(x) else []) + (if PassedOver(cfg, y) then Render(y) else [])
  {
    hide Render, PassedOver;
    assert [x, y][1..] == [y] && [y][1..] == [] && [ex, ey][1..] == [ey] && [ey][1..] == [];
    assert Arguments([y]) == Render(y) + Arguments([]) && Arguments([]) == [];
    assert Flatten([ey]) == ey + Flatten([]) && Flatten([]) == [];
    assert Others(cfg, []) == [] && Words(cfg, []) == [];
    assert Others(cfg, [y]) == (if PassedOver(cfg, y) then [] else Render(y)) + [];
    assert Words(cfg, [y]) == (if PassedOver(cfg, y) then Render(y) else []) + [];
  }
}
