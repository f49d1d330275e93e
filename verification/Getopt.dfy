/** The argument scanner behind getopt_long: option clusters, long options with abbreviations,
    and the deferred permutation that moves non-options behind the options.

    `Scan` is the reference: it reads the arguments once from left to right and never moves one.
    The class below works in place on argv, one call an option. `Getopt.Run` shows that a
    complete run reports what the reference reports and leaves argv stably partitioned. */
module Getopt {
  import opened Common
  import opened Permute

  datatype HasArg = NoArgument | RequiredArgument | OptionalArgument

  /** `flag` is the address the value is stored to, if any. */
  datatype LongOption = LongOption(name: string, hasArg: HasArg, flag: Option<int>, val: int)

  const END: int := -1
  const BADCH: int := '?' as int
  const INORDER: int := 1

  datatype Config = Config(
    options: string,
    longOptions: Option<seq<LongOption>>,
    posixlyCorrect: bool,
    flagPermute: bool,
    flagLongOnly: bool)
  {
    predicate AllArgs() {
      |options| > 0 && options[0] == '-'
    }

    predicate Permute() {
      flagPermute && (AllArgs() || !(posixlyCorrect || (|options| > 0 && options[0] == '+')))
    }

    function Shorts(): string {
      if |options| > 0 && (options[0] == '+' || options[0] == '-') then options[1..] else options
    }

    function BadArg(): int {
      if |Shorts()| > 0 && Shorts()[0] == ':' then ':' as int else BADCH
    }

    /** -1 reports the end of the options, so no long option may return it. */
    ghost predicate Valid() {
      longOptions.Some? ==>
        forall i | 0 <= i < |longOptions.value| ::
          longOptions.value[i].flag.None? ==> longOptions.value[i].val != END
    }
  }

  /** What one call reports: its return value and optarg. */
  datatype Event = Event(ret: int, arg: Option<string>)

  // ----- Reference: one option -----

  function IndexOf(s: string, c: char): (k: nat)
    ensures k <= |s|
    ensures k < |s| ==> s[k] == c
    ensures c !in s[..k]
  {
    if s == [] || s[0] == c then 0 else
      var k := 1 + IndexOf(s[1..], c);
      assert s[..k] == [s[0]] + s[1..][..k - 1];
      k
  }

  /** A proper abbreviation; a single character may be a known short option instead. */
  predicate Partial(long: LongOption, name: string, shortToo: bool) {
    name <= long.name && name != long.name && !(shortToo && |name| == 1)
  }

  predicate Differ(longOnly: bool, x: LongOption, y: LongOption) {
    longOnly || x.hasArg != y.hasArg || x.flag != y.flag || x.val != y.val
  }

  function FirstExact(longs: seq<LongOption>, name: string): (k: nat)
    ensures k <= |longs|
    ensures k < |longs| ==> longs[k].name == name
    ensures forall i | 0 <= i < k :: longs[i].name != name
  {
    if longs == [] || longs[0].name == name then 0 else 1 + FirstExact(longs[1..], name)
  }

  function FirstPartial(longs: seq<LongOption>, name: string, shortToo: bool): (k: nat)
    ensures k <= |longs|
    ensures k < |longs| ==> Partial(longs[k], name, shortToo)
    ensures forall i | 0 <= i < k :: !Partial(longs[i], name, shortToo)
  {
    if longs == [] || Partial(longs[0], name, shortToo) then 0 else 1 + FirstPartial(longs[1..], name, shortToo)
  }

  predicate Rival(longs: seq<LongOption>, name: string, shortToo: bool, longOnly: bool, f: nat, i: nat)
    requires f < |longs| && i < |longs|
  {
    Partial(longs[i], name, shortToo) && Differ(longOnly, longs[i], longs[f])
  }

  datatype Match = NoMatch | Ambiguous | Found(index: nat)

  /** The first exact match wins; failing that the first abbreviation, unless a later one differs. */
  function FindLong(longs: seq<LongOption>, name: string, shortToo: bool, longOnly: bool): (m: Match)
    ensures m.Found? ==> m.index < |longs| && name <= longs[m.index].name
  {
    var e := FirstExact(longs, name);
    if e < |longs| then Found(e) else
      var f := FirstPartial(longs, name, shortToo);
      if f == |longs| then NoMatch
      else if exists i | f < i < |longs| :: Rival(longs, name, shortToo, longOnly, f, i)
      then Ambiguous
      else Found(f)
  }

  /** The outcome of one option: what is reported, the rest of the cluster, the next argument. */
  datatype Step = Step(event: Event, place: string, next: nat)

  /** A long option in argument `i`, spelled `text` without its dashes. */
  function LongStep(cfg: Config, longs: seq<LongOption>, args: seq<string>, i: nat, text: string, shortToo: bool): (r: Step)
    requires i < |args|
    ensures i <= r.next <= |args| && r.place == ""
    ensures !shortToo ==> i < r.next
  {
    var k := IndexOf(text, '=');
    var value := if k < |text| then Some(text[k + 1..]) else None;
    match FindLong(longs, text[..k], shortToo, cfg.flagLongOnly)
    case Ambiguous => Step(Event(BADCH, None), "", i + 1)
    case NoMatch =>
      if shortToo then Step(Event(END, None), "", i) else Step(Event(BADCH, None), "", i + 1)
    case Found(m) => LongFound(cfg, longs[m], args, i, value)
  }

  /** A long option that was recognised, with the value attached to it. */
  function LongFound(cfg: Config, opt: LongOption, args: seq<string>, i: nat, value: Option<string>): (r: Step)
    requires i < |args|
    ensures i < r.next <= |args| && r.place == ""
  {
    var ret := if opt.flag.Some? then 0 else opt.val;
    match opt.hasArg
    case NoArgument => Step(Event(if value.Some? then BADCH else ret, None), "", i + 1)
    case OptionalArgument => Step(Event(ret, value), "", i + 1)
    case RequiredArgument =>
      if value.Some? then Step(Event(ret, value), "", i + 1)
      else if i + 1 < |args| then Step(Event(ret, Some(args[i + 1])), "", i + 2)
      else Step(Event(cfg.BadArg(), None), "", i + 1)
  }

  /** A short option in argument `i`; `place` is what is left of its cluster. None: stop here. */
  function ShortStep(cfg: Config, args: seq<string>, i: nat, place: string): (r: Option<Step>)
    requires i < |args| && place != ""
    ensures r.Some? ==> r.value.next <= |args|
    ensures r.Some? && r.value.place != "" ==> r.value.place == place[1..] && r.value.next == i
    ensures r.Some? && r.value.place == "" ==> i < r.value.next
  {
    var c, rest := place[0], place[1..];
    var k := IndexOf(cfg.Shorts(), c);
    if c == ':' || (c == '-' && rest != "") || k == |cfg.Shorts()| then
      if c == '-' && rest == "" then None
      else Some(Step(Event(BADCH, None), rest, if rest == "" then i + 1 else i))
    else
      var after := cfg.Shorts()[k + 1..];
      if cfg.longOptions.Some? && c == 'W' && |after| > 0 && after[0] == ';' then
        if rest != "" then Some(LongStep(cfg, cfg.longOptions.value, args, i, rest, false))
        else if i + 1 >= |args| then Some(Step(Event(cfg.BadArg(), None), "", i + 1))
        else Some(LongStep(cfg, cfg.longOptions.value, args, i + 1, args[i + 1], false))
      else if !(|after| > 0 && after[0] == ':') then
        Some(Step(Event(c as int, None), rest, if rest == "" then i + 1 else i))
      else if rest != "" then Some(Step(Event(c as int, Some(rest)), "", i + 1))
      else if |after| > 1 && after[1] == ':' then Some(Step(Event(c as int, None), "", i + 1))
      else if i + 1 >= |args| then Some(Step(Event(cfg.BadArg(), None), "", i + 1))
      else Some(Step(Event(c as int, Some(args[i + 1])), "", i + 2))
  }

  /** One option: long where the syntax asks for it, else short. */
  function OptionStep(cfg: Config, args: seq<string>, i: nat, place: string): (r: Option<Step>)
    requires i < |args| && place != ""
    ensures r.Some? ==> r.value.next <= |args|
    ensures r.Some? && r.value.place != "" ==> r.value.place == place[1..] && r.value.next == i
    ensures r.Some? && r.value.place == "" ==> i < r.value.next
  {
    if cfg.longOptions.Some? && place[0] == '-' then
      Some(LongStep(cfg, cfg.longOptions.value, args, i, place[1..], false))
    else if cfg.longOptions.Some? && cfg.flagLongOnly then
      var shortToo := place[0] != ':' && place[0] in cfg.Shorts();
      var s := LongStep(cfg, cfg.longOptions.value, args, i, place, shortToo);
      if s.next == i then ShortStep(cfg, args, i, place) else Some(s)
    else
      ShortStep(cfg, args, i, place)
  }

  // ----- Reference: the whole argument vector -----

  predicate IsOption(arg: string) {
    |arg| >= 2 && arg[0] == '-'
  }

  /** What a left-to-right reading finds: the reports, the options with their arguments, the
      non-options among them, what is behind the end, and whether a lone '-' in a cluster cut it short. */
  datatype Outcome = Outcome(events: seq<Event>, opts: seq<string>, nons: seq<string>, rest: seq<string>, cut: bool)

  function Scan(cfg: Config, args: seq<string>, i: nat, place: string): (r: Outcome)
    requires i <= |args| && (place != "" ==> i < |args|)
    decreases |args| - i, if place == "" && i < |args| then 1 + |args[i]| else |place|
  {
    if place == "" && i == |args| then Outcome([], [], [], [], false)
    else if place == "" && !IsOption(args[i]) then
      if cfg.AllArgs() then
        var r := Scan(cfg, args, i + 1, "");
        r.(events := [Event(INORDER, Some(args[i]))] + r.events, opts := [args[i]] + r.opts)
      else if !cfg.Permute() then Outcome([], [], [], args[i..], false)
      else
        var r := Scan(cfg, args, i + 1, "");
        r.(nons := [args[i]] + r.nons)
    else if place == "" && args[i] == "--" then Outcome([], ["--"], [], args[i + 1..], false)
    else
      match OptionStep(cfg, args, i, if place == "" then args[i][1..] else place)
      case None => Outcome([], [], [], args[i..], true)
      case Some(s) =>
        var r := Scan(cfg, args, s.next, s.place);
        r.(events := [s.event] + r.events, opts := args[i..s.next] + r.opts)
  }

  // ----- The reference is a stable partition -----

  /** The elements marked `b`, in order. */
  function Select(s: seq<string>, mask: seq<bool>, b: bool): seq<string>
    requires |s| == |mask|
  {
    if s == [] then []
    else (if mask[0] == b then [s[0]] else []) + Select(s[1..], mask[1..], b)
  }

  lemma {:induction false} SelectRun(s: seq<string>, t: seq<string>, mask: seq<bool>, b: bool)
    requires |t| == |mask|
    ensures var m := seq(|s|, _ => true) + mask;
            Select(s + t, m, b) == (if b then s else []) + Select(t, mask, b)
  {
    var m := seq(|s|, _ => true) + mask;
    if s == [] {
      assert s + t == t && m == mask;
    } else {
      assert (s + t)[1..] == s[1..] + t;
      assert m[1..] == seq(|s| - 1, _ => true) + mask;
      SelectRun(s[1..], t, mask, b);
    }
  }

  lemma {:induction false} SelectMultiset(s: seq<string>, mask: seq<bool>)
    requires |s| == |mask|
    ensures multiset(Select(s, mask, true)) + multiset(Select(s, mask, false)) == multiset(s)
  {
    if s != [] {
      assert s == [s[0]] + s[1..];
      SelectMultiset(s[1..], mask[1..]);
    }
  }

  /** `opts` and `nons` are the two halves of a marking of all arguments before `rest`, each in the
      order given; what is marked a non-option looks like one. */
  ghost predicate Partitions(r: Outcome, s: seq<string>, mask: seq<bool>) {
    && |mask| <= |s|
    && r.rest == s[|mask|..]
    && r.opts == Select(s[..|mask|], mask, true)
    && r.nons == Select(s[..|mask|], mask, false)
    && forall x | x in r.nons :: !IsOption(x)
  }

  lemma PartitionPrefix(r: Outcome, s: seq<string>, mask: seq<bool>, pre: seq<string>)
    requires Partitions(r, s, mask)
    ensures Partitions(r.(opts := pre + r.opts), pre + s, seq(|pre|, _ => true) + mask)
  {
    var n := |pre| + |mask|;
    assert (pre + s)[..n] == pre + s[..|mask|];
    assert (pre + s)[n..] == s[|mask|..];
    SelectRun(pre, s[..|mask|], mask, true);
    SelectRun(pre, s[..|mask|], mask, false);
  }

  lemma PartitionSkip(r: Outcome, s: seq<string>, mask: seq<bool>, x: string)
    requires Partitions(r, s, mask) && !IsOption(x)
    ensures Partitions(r.(nons := [x] + r.nons), [x] + s, [false] + mask)
  {
    var n := 1 + |mask|;
    assert ([x] + s)[..n] == [x] + s[..|mask|];
    assert ([x] + s)[..n][1..] == s[..|mask|];
    assert ([x] + s)[n..] == s[|mask|..];
    assert ([false] + mask)[1..] == mask;
  }

  lemma PartitionStop(args: seq<string>, i: nat, r: Outcome)
    requires i <= |args|
    requires r.opts == [] && r.nons == [] && r.rest == args[i..]
    ensures Partitions(r, args[i..], [])
  {
  }

  lemma {:induction false} ScanPartitions(cfg: Config, args: seq<string>, i: nat, place: string) returns (mask: seq<bool>)
    requires i <= |args| && (place != "" ==> i < |args|)
    ensures Partitions(Scan(cfg, args, i, place), args[i..], mask)
    decreases |args| - i, if place == "" && i < |args| then 1 + |args[i]| else |place|
  {
    hide Partitions, OptionStep;
    var r := Scan(cfg, args, i, place);
    if place == "" && i == |args| {
      mask := [];
      PartitionStop(args, i, r);
    } else if place == "" && !IsOption(args[i]) {
      assert args[i..] == [args[i]] + args[i + 1..];
      if !cfg.AllArgs() && !cfg.Permute() {
        mask := [];
        PartitionStop(args, i, r);
      } else {
        mask := ScanPartitions(cfg, args, i + 1, "");
        var r' := Scan(cfg, args, i + 1, "");
        if cfg.AllArgs() {
          PartitionPrefix(r', args[i + 1..], mask, [args[i]]);
          PartitionEvents(r'.(opts := [args[i]] + r'.opts), r, args[i..], seq(1, _ => true) + mask);
          mask := seq(1, _ => true) + mask;
        } else {
          PartitionSkip(r', args[i + 1..], mask, args[i]);
          mask := [false] + mask;
        }
      }
    } else if place == "" && args[i] == "--" {
      var r' := Outcome([], [], [], args[i + 1..], false);
      PartitionStop(args, i + 1, r');
      PartitionPrefix(r', args[i + 1..], [], ["--"]);
      assert args[i..] == ["--"] + args[i + 1..];
      assert r'.(opts := ["--"] + r'.opts).opts == ["--"];
      mask := seq(|["--"]|, _ => true) + [];
      PartitionEvents(r'.(opts := ["--"] + r'.opts), r, args[i..], mask);
    } else {
      var place' := if place == "" then args[i][1..] else place;
      match OptionStep(cfg, args, i, place')
      case None =>
        mask := [];
        PartitionStop(args, i, r);
      case Some(s) =>
        mask := ScanPartitions(cfg, args, s.next, s.place);
        var r' := Scan(cfg, args, s.next, s.place);
        var pre := args[i..s.next];
        assert args[i..] == pre + args[s.next..];
        PartitionPrefix(r', args[s.next..], mask, pre);
        PartitionEvents(r'.(opts := pre + r'.opts), r, args[i..], seq(|pre|, _ => true) + mask);
        mask := seq(|pre|, _ => true) + mask;
    }
  }

  lemma PartitionEvents(r: Outcome, r': Outcome, s: seq<string>, mask: seq<bool>)
    requires Partitions(r, s, mask)
    requires r'.opts == r.opts && r'.nons == r.nons && r'.rest == r.rest
    ensures Partitions(r', s, mask)
  {
  }

  /** No argument is lost, added or changed. */
  lemma ScanIsPermutation(cfg: Config, args: seq<string>)
    requires 1 <= |args|
    ensures var r := Scan(cfg, args, 1, "");
            multiset(r.opts) + multiset(r.nons) + multiset(r.rest) == multiset(args[1..])
  {
    hide Scan, Select;
    var r := Scan(cfg, args, 1, "");
    var mask := ScanPartitions(cfg, args, 1, "");
    var s := args[1..];
    SelectMultiset(s[..|mask|], mask);
    assert s == s[..|mask|] + s[|mask|..];
  }

  /** Whether some argument vector cuts the scan short. */
  predicate CanBeCut(cfg: Config) {
    cfg.longOptions.None? && '-' !in cfg.Shorts()
  }

  lemma NeverNone(cfg: Config, args: seq<string>, i: nat, place: string)
    requires i < |args| && place != "" && !CanBeCut(cfg)
    ensures OptionStep(cfg, args, i, place).Some?
  {
    hide LongStep, IndexOf, Config.Shorts;
    if '-' in cfg.Shorts() {
      var k := IndexOf(cfg.Shorts(), '-');
      assert cfg.Shorts()[..|cfg.Shorts()|] == cfg.Shorts();
    }
  }

  /** Where long options are given, or '-' is an option, a scan is never cut short. */
  lemma {:induction false} NeverCut(cfg: Config, args: seq<string>, i: nat, place: string)
    requires i <= |args| && (place != "" ==> i < |args|)
    requires !CanBeCut(cfg)
    ensures !Scan(cfg, args, i, place).cut
    decreases |args| - i, if place == "" && i < |args| then 1 + |args[i]| else |place|
  {
    hide LongStep;
    if place == "" && i == |args| {
    } else if place == "" && !IsOption(args[i]) {
      if cfg.AllArgs() || cfg.Permute() {
        NeverCut(cfg, args, i + 1, "");
      }
    } else if place == "" && args[i] == "--" {
    } else {
      var place' := if place == "" then args[i][1..] else place;
      NeverNone(cfg, args, i, place');
      var s := OptionStep(cfg, args, i, place').value;
      NeverCut(cfg, args, s.next, s.place);
    }
  }

  /** Otherwise an unknown option with a '-' behind it does. */
  lemma CutByColon(cfg: Config)
    requires CanBeCut(cfg)
    ensures Scan(cfg, ["prog", "-:-"], 1, "").cut
  {
    hide LongStep;
    var args := ["prog", "-:-"];
    assert args[1][1..] == ":-";
    assert OptionStep(cfg, args, 1, ":-") == Some(Step(Event(BADCH, None), "-", 1));
    assert OptionStep(cfg, args, 1, "-") == None;
    assert Scan(cfg, args, 1, "-").cut;
  }

  /** A scan can be cut short if and only if there are no long options and '-' is no option. */
  lemma CutIff(cfg: Config)
    ensures CanBeCut(cfg) <==> exists args: seq<string> :: 1 <= |args| && Scan(cfg, args, 1, "").cut
  {
    hide Scan, CanBeCut;
    if CanBeCut(cfg) {
      CutByColon(cfg);
      assert Scan(cfg, ["prog", "-:-"], 1, "").cut && 1 <= |["prog", "-:-"]|;
    } else {
      forall args: seq<string> | 1 <= |args|
        ensures !Scan(cfg, args, 1, "").cut
      {
        NeverCut(cfg, args, 1, "");
      }
    }
  }

  /** Without long options a cluster that ends in '-' cuts the scan short, with nothing permuted. */
  lemma CutExample()
    ensures var cfg := Config("a", None, false, true, false);
            Scan(cfg, ["prog", "x", "-a-", "-a"], 1, "")
              == Outcome([Event('a' as int, None)], [], ["x"], ["-a-", "-a"], true)
  {
    var cfg := Config("a", None, false, true, false);
    var args := ["prog", "x", "-a-", "-a"];
    assert args[2][1..] == "a-";
    assert OptionStep(cfg, args, 2, "a-") == Some(Step(Event('a' as int, None), "-", 2)) by {
      assert IndexOf("a", 'a') == 0;
    }
    assert OptionStep(cfg, args, 2, "-") == None by {
      assert IndexOf("a", '-') == 1 by {
        assert IndexOf("", '-') == 0;
      }
    }
    assert Scan(cfg, args, 2, "-") == Outcome([], [], [], args[2..], true);
    assert Scan(cfg, args, 2, "") == Outcome([Event('a' as int, None)], args[2..2], [], args[2..], true);
  }

  // ----- The scanner -----

  /** Before `i` lie the options taken, with the non-options passed over as one block from `ns`,
      which ends at `ne` or, when that is -1, at `i`. */
  ghost predicate Laid(argv: seq<string>, given: seq<string>, i: nat, ns: int, ne: int, taken: seq<string>, skipped: seq<string>)
  {
    && |argv| == |given|
    && 1 <= i <= |argv|
    && argv[0] == given[0]
    && argv[i..] == given[i..]
    && if ns == -1 then
         ne == -1 && skipped == [] && argv[1..i] == taken
       else if ne == -1 then
         && 1 <= ns < i
         && argv[1..ns] == taken
         && argv[ns..i] == skipped
       else
         && 1 <= ns < ne <= i
         && argv[1..ns] + argv[ne..i] == taken
         && argv[ns..ne] == skipped
  }

  lemma LaidAdvance(argv: seq<string>, given: seq<string>, i: nat, j: nat, ns: int, ne: int, taken: seq<string>, skipped: seq<string>)
    requires Laid(argv, given, i, ns, ne, taken, skipped)
    requires i <= j <= |argv| && (ns != -1 ==> ne != -1)
    ensures Laid(argv, given, j, ns, ne, taken + given[i..j], skipped)
  {
    assert argv[i..j] == argv[i..][..j - i] == given[i..j];
    assert argv[j..] == argv[i..][j - i..] == given[j..];
    if ns == -1 {
      assert argv[1..j] == argv[1..i] + argv[i..j];
    } else {
      assert argv[ne..j] == argv[ne..i] + argv[i..j];
      assert argv[1..ns] + argv[ne..j] == argv[1..ns] + argv[ne..i] + argv[i..j];
    }
  }

  lemma LaidIsPermutation(argv: seq<string>, given: seq<string>, i: nat, ns: int, ne: int, taken: seq<string>, skipped: seq<string>)
    requires Laid(argv, given, i, ns, ne, taken, skipped)
    ensures multiset(argv) == multiset([given[0]]) + multiset(taken) + multiset(skipped) + multiset(given[i..])
  {
    if ns == -1 {
      Slices(argv, i, i, i);
    } else if ne == -1 {
      Slices(argv, ns, i, i);
    } else {
      Slices(argv, ns, ne, i);
      assert multiset(taken) == multiset(argv[1..ns]) + multiset(argv[ne..i]);
    }
  }

  /** The non-options are one block somewhere among the options. */
  ghost predicate SkippedWithin(argv: seq<string>, opts: seq<string>, nons: seq<string>, rest: seq<string>) {
    exists k: nat :: k <= |opts| && argv == Interleaved(opts, nons, rest, k)
  }

  ghost function Interleaved(opts: seq<string>, nons: seq<string>, rest: seq<string>, k: nat): seq<string>
    requires k <= |opts|
  {
    opts[..k] + nons + opts[k..] + rest
  }

  lemma LaidWithin(argv: seq<string>, given: seq<string>, i: nat, ns: int, ne: int, taken: seq<string>, skipped: seq<string>)
    requires Laid(argv, given, i, ns, ne, taken, skipped)
    ensures SkippedWithin(argv[1..], taken, skipped, given[i..])
    ensures i == 1 + |taken| + |skipped|
    ensures skipped == [] ==> argv[1..] == taken + skipped + given[i..]
  {
    var k := if ns != -1 && ne != -1 then ns - 1 else |taken|;
    if ns == -1 {
      assert argv[1..] == argv[1..i] + argv[i..];
    } else if ne == -1 {
      assert argv[1..] == argv[1..ns] + argv[ns..i] + argv[i..];
    } else {
      assert argv[1..] == argv[1..ns] + argv[ns..ne] + argv[ne..i] + argv[i..];
      assert taken[..k] == argv[1..ns] && taken[k..] == argv[ne..i];
    }
    assert argv[1..] == Interleaved(taken, skipped, given[i..], k);
  }

  lemma Slices(s: seq<string>, x: nat, y: nat, z: nat)
    requires 1 <= x <= y <= z <= |s|
    ensures multiset(s) == multiset([s[0]]) + multiset(s[1..x]) + multiset(s[x..y]) + multiset(s[y..z]) + multiset(s[z..])
  {
    assert s == s[..z] + s[z..];
    assert s[..z] == s[..y] + s[y..z];
    assert s[..y] == s[..x] + s[x..y];
    assert s[..x] == [s[0]] + s[1..x];
  }

  lemma LaidAhead(argv: seq<string>, given: seq<string>, i: nat, ns: int, ne: int, taken: seq<string>, skipped: seq<string>)
    requires Laid(argv, given, i, ns, ne, taken, skipped)
    ensures |argv| == |given| && 1 <= i <= |argv| && argv[i..] == given[i..] && ne <= i
  {
  }

  lemma LongStepLocal(cfg: Config, longs: seq<LongOption>, args: seq<string>, args': seq<string>, i: nat, text: string, shortToo: bool)
    requires i < |args| == |args'| && args[i..] == args'[i..]
    ensures LongStep(cfg, longs, args, i, text, shortToo) == LongStep(cfg, longs, args', i, text, shortToo)
  {
    hide FindLong;
    if i + 1 < |args| {
      SameBehind(args, args', i, i + 1);
    }
  }

  lemma SameBehind(args: seq<string>, args': seq<string>, i: nat, k: nat)
    requires i <= k < |args| == |args'| && args[i..] == args'[i..]
    ensures args[k] == args'[k] && args[k..] == args'[k..]
  {
    assert args[k] == args[i..][k - i];
    assert args[k..] == args[i..][k - i..];
  }

  lemma ShortStepLocal(cfg: Config, args: seq<string>, args': seq<string>, i: nat, place: string)
    requires i < |args| == |args'| && args[i..] == args'[i..] && place != ""
    ensures ShortStep(cfg, args, i, place) == ShortStep(cfg, args', i, place)
  {
    hide LongStep, IndexOf, Config.Shorts;
    if cfg.longOptions.Some? {
      LongStepLocal(cfg, cfg.longOptions.value, args, args', i, place[1..], false);
      if i + 1 < |args| {
        SameBehind(args, args', i, i + 1);
        LongStepLocal(cfg, cfg.longOptions.value, args, args', i + 1, args[i + 1], false);
      }
    }
    if i + 1 < |args| {
      SameBehind(args, args', i, i + 1);
    }
  }

  /** An option is read from the arguments at and behind it only. */
  lemma OptionStepLocal(cfg: Config, args: seq<string>, args': seq<string>, i: nat, place: string)
    requires i < |args| == |args'| && args[i..] == args'[i..] && place != ""
    ensures OptionStep(cfg, args, i, place) == OptionStep(cfg, args', i, place)
  {
    hide LongStep, ShortStep, Config.Shorts;
    ShortStepLocal(cfg, args, args', i, place);
    if cfg.longOptions.Some? {
      LongStepLocal(cfg, cfg.longOptions.value, args, args', i, place[1..], false);
      var shortToo := place[0] != ':' && place[0] in cfg.Shorts();
      LongStepLocal(cfg, cfg.longOptions.value, args, args', i, place, shortToo);
    }
  }

  lemma ShortReturns(cfg: Config, args: seq<string>, i: nat, place: string)
    requires cfg.Valid() && i < |args| && place != ""
    ensures var r := ShortStep(cfg, args, i, place); r.Some? ==> r.value.event.ret != END
  {
    hide LongStep, IndexOf, Config.Shorts, Config.Valid;
    if cfg.longOptions.Some? {
      LongReturns(cfg, args, i, place[1..], false);
      if i + 1 < |args| {
        LongReturns(cfg, args, i + 1, args[i + 1], false);
      }
    }
  }

  /** No option reports the end. */
  lemma StepReturns(cfg: Config, args: seq<string>, i: nat, place: string)
    requires cfg.Valid() && i < |args| && place != ""
    ensures var r := OptionStep(cfg, args, i, place); r.Some? ==> r.value.event.ret != END
  {
    hide LongStep, ShortStep, Config.Shorts, Config.Valid;
    ShortReturns(cfg, args, i, place);
    if cfg.longOptions.Some? {
      LongReturns(cfg, args, i, place[1..], false);
      var shortToo := place[0] != ':' && place[0] in cfg.Shorts();
      LongReturns(cfg, args, i, place, shortToo);
    }
  }

  /** The static variables of the scanner. The ghost fields record the arguments as first given
      and, of those before optind, the options with their arguments and the non-options. */
  class Scanner {
    var optind: nat
    var optreset: bool
    var optarg: Option<string>
    var place: string
    var nonoptStart: int
    var nonoptEnd: int
    ghost var given: seq<string>
    ghost var taken: seq<string>
    ghost var skipped: seq<string>

    constructor ()
      ensures optind == 1 && !optreset && place == "" && nonoptStart == nonoptEnd == -1
    {
      optind, optreset, optarg, place := 1, false, None, "";
      nonoptStart, nonoptEnd := -1, -1;
      given, taken, skipped := [], [], [];
    }

    /** Where options and non-options before optind lie in argv. */
    ghost predicate Layout(argv: seq<string>)
      reads `given, `taken, `skipped, `optind, `nonoptStart, `nonoptEnd
    {
      Laid(argv, given, optind, nonoptStart, nonoptEnd, taken, skipped)
    }

    /** What holds between two calls. */
    ghost predicate Valid(cfg: Config, argv: seq<string>)
      reads this
    {
      && !optreset
      && Layout(argv)
      && (cfg.AllArgs() || !cfg.Permute() ==> nonoptStart == -1)
      && (place != "" ==> optind < |argv| && IsOption(given[optind]) && (nonoptStart != -1 ==> nonoptEnd != -1))
      && (place == "" && nonoptEnd != -1 ==> nonoptEnd < optind)
    }

    /** The search of parse_long_options. */
    static method SearchLongOptions(longs: seq<LongOption>, name: string, shortToo: bool, longOnly: bool)
        returns (match_: int, ambiguous: bool)
      ensures FindLong(longs, name, shortToo, longOnly) ==
              if ambiguous then Ambiguous else if 0 <= match_ then Found(match_) else NoMatch
      ensures -1 <= match_ < |longs|
    {
      match_ := -1;
      var exactMatch, secondPartialMatch := false, false;
      for i := 0 to |longs|
        invariant forall j | 0 <= j < i :: longs[j].name != name
        invariant match_ == -1 ==> forall j | 0 <= j < i :: !Partial(longs[j], name, shortToo)
        invariant match_ != -1 ==> 0 <= match_ < i && Partial(longs[match_], name, shortToo)
        invariant match_ != -1 ==> forall j | 0 <= j < match_ :: !Partial(longs[j], name, shortToo)
        invariant secondPartialMatch ==>
          match_ != -1 && exists j | match_ < j < i :: Rival(longs, name, shortToo, longOnly, match_, j)
        invariant !secondPartialMatch && match_ != -1 ==>
          forall j | match_ < j < i :: !Rival(longs, name, shortToo, longOnly, match_, j)
      {
        if name <= longs[i].name {
          if |longs[i].name| == |name| {
            match_ := i;
            exactMatch := true;
            break;
          }
          if !(shortToo && |name| == 1) {
            if match_ == -1 {
              match_ := i;
            } else if Differ(longOnly, longs[i], longs[match_]) {
              secondPartialMatch := true;
              assert Rival(longs, name, shortToo, longOnly, match_, i);
            }
          }
        }
      }
      ambiguous := !exactMatch && secondPartialMatch;
    }

    /** parse_long_options: matches `place` against the long options. */
    method ParseLongOptions(nargv: array<string>, cfg: Config, longs: seq<LongOption>, shortToo: bool) returns (ret: int)
      requires optind < nargv.Length && optarg == None
      modifies this`optind, this`optarg
      ensures var s := LongStep(cfg, longs, nargv[..], old(optind), place, shortToo);
              ret == s.event.ret && optind == s.next && optarg == s.event.arg
    {
      var currentArgv := place;
      var k := IndexOf(currentArgv, '=');
      var hasEqual := k < |currentArgv|;
      optind := optind + 1;
      var match_, ambiguous := SearchLongOptions(longs, currentArgv[..k], shortToo, cfg.flagLongOnly);
      hide FindLong, IndexOf, Config.BadArg;

      if ambiguous {
        return BADCH;
      }
      if match_ != -1 {
        var opt := longs[match_];
        if opt.hasArg == NoArgument && hasEqual {
          return BADCH;
        }
        if opt.hasArg == RequiredArgument || opt.hasArg == OptionalArgument {
          if hasEqual {
            optarg := Some(currentArgv[k + 1..]);
          } else if opt.hasArg == RequiredArgument {
            // the vector ends in a null pointer
            optarg := if optind < nargv.Length then Some(nargv[optind]) else None;
            optind := optind + 1;
          }
        }
        if opt.hasArg == RequiredArgument && optarg == None {
          optind := optind - 1;
          return cfg.BadArg();
        }
        return if opt.flag.Some? then 0 else opt.val;
      } else if shortToo {
        optind := optind - 1;
        return END;
      } else {
        return BADCH;
      }
    }

    /** getopt_internal, an option by its letter. False: stop here. */
    method ShortOption(nargv: array<string>, cfg: Config) returns (ok: bool, ret: int)
      requires optind < nargv.Length && optarg == None && place != "" && cfg.Valid()
      modifies this`optind, this`optarg, this`place
      ensures ok <==> ShortStep(cfg, nargv[..], old(optind), old(place)).Some?
      ensures ok ==> Step(Event(ret, optarg), place, optind) == ShortStep(cfg, nargv[..], old(optind), old(place)).value
      ensures !ok ==> ret == END && optind == old(optind) && place == ""
    {
      hide LongStep, IndexOf, Config.BadArg, Config.Shorts;
      var optchar := place[0];
      place := place[1..];
      var k := IndexOf(cfg.Shorts(), optchar);
      if optchar == ':' || (optchar == '-' && place != "") || k == |cfg.Shorts()| {
        if optchar == '-' && place == "" {
          return false, END;
        }
        if place == "" {
          optind := optind + 1;
        }
        return true, BADCH;
      }
      var after := cfg.Shorts()[k + 1..];
      if cfg.longOptions.Some? && optchar == 'W' && |after| > 0 && after[0] == ';' {
        if place == "" {
          optind := optind + 1;
          if optind >= nargv.Length {
            return true, cfg.BadArg();
          }
          place := nargv[optind];
        }
        ret := ParseLongOptions(nargv, cfg, cfg.longOptions.value, false);
        place := "";
        return true, ret;
      }
      if !(|after| > 0 && after[0] == ':') {
        if place == "" {
          optind := optind + 1;
        }
      } else {
        optarg := None;
        if place != "" {
          optarg := Some(place);
        } else if !(|after| > 1 && after[1] == ':') {
          optind := optind + 1;
          if optind >= nargv.Length {
            place := "";
            return true, cfg.BadArg();
          }
          optarg := Some(nargv[optind]);
        }
        place := "";
        optind := optind + 1;
      }
      return true, optchar as int;
    }

    /** The part of getopt_internal behind the scanning update: one option out of `place`. */
    method NextOption(nargv: array<string>, cfg: Config) returns (ok: bool, ret: int)
      requires optind < nargv.Length && optarg == None && place != "" && cfg.Valid()
      modifies this`optind, this`optarg, this`place
      ensures ok <==> OptionStep(cfg, nargv[..], old(optind), old(place)).Some?
      ensures ok ==> Step(Event(ret, optarg), place, optind) == OptionStep(cfg, nargv[..], old(optind), old(place)).value
      ensures !ok ==> ret == END && optind == old(optind) && place == ""
    {
      hide ShortStep, IndexOf, Config.Shorts;
      if cfg.longOptions.Some? && (place[0] == '-' || cfg.flagLongOnly) {
        var shortToo := false;
        if place[0] == '-' {
          place := place[1..];
        } else {
          shortToo := place[0] != ':' && place[0] in cfg.Shorts();
        }
        LongReturns(cfg, nargv[..], optind, place, shortToo);
        ret := ParseLongOptions(nargv, cfg, cfg.longOptions.value, shortToo);
        hide LongStep;
        if ret != END {
          place := "";
          return true, ret;
        }
      }
      ok, ret := ShortOption(nargv, cfg);
    }

    /** The scan starts at the first argument: initially, and after optind or optreset was set. */
    ghost predicate Restart()
      reads this
    {
      optind == 0 || (optind == 1 && (optreset || (place == "" && nonoptStart == nonoptEnd == -1)))
    }

    ghost predicate Ready(cfg: Config, argv: seq<string>)
      reads this
    {
      1 <= |argv| && (Restart() || Valid(cfg, argv))
    }

    /** What is owed when a call begins. */
    ghost function Pending(cfg: Config, argv: seq<string>): Promise
      requires Ready(cfg, argv)
      reads this
    {
      if Restart() then Promise(Scan(cfg, argv, 1, ""), [], [])
      else Promise(Scan(cfg, given, optind, place), taken, skipped)
    }

    /** The vector after a complete scan: options with their arguments, non-options, the rest. */
    ghost predicate Final(argv: seq<string>, opts: seq<string>, nons: seq<string>, rest: seq<string>)
      reads this
    {
      && 1 <= |argv| == |given| && argv[0] == given[0]
      && argv[1..] == opts + nons + rest
      && optind == 1 + |opts|
      && nonoptStart == nonoptEnd == -1
    }

    /** Before the option at optind is looked at: the non-options passed over end here. */
    ghost predicate AtOption(cfg: Config, argv: seq<string>)
      reads this
    {
      && !optreset
      && Layout(argv)
      && (cfg.AllArgs() || !cfg.Permute() ==> nonoptStart == -1)
      && optind < |argv|
      && (nonoptStart != -1 ==> nonoptEnd != -1)
    }

    /** A scan that was cut short: the option at optind and all behind it are left, unpermuted. */
    ghost predicate Cut(argv: seq<string>, p: Promise)
      reads this
    {
      && Layout(argv)
      && optind < |argv| && IsOption(argv[optind])
      && p.CutHere(given, optind, taken, skipped)
    }

    /** The state in which a scan that owed `p` has ended. */
    ghost predicate Over(argv: seq<string>, p: Promise)
      reads this
    {
      if p.ahead.cut then Cut(argv, p) else Final(argv, p.Opts(), p.Nons(), p.ahead.rest)
    }

    /** Makes the non-options the last block before optind. */
    method PermuteSkipped(nargv: array<string>)
      requires Layout(nargv[..]) && -1 < nonoptEnd < optind
      modifies nargv, this`nonoptStart, this`nonoptEnd
      ensures Layout(nargv[..]) && nonoptStart == optind - |skipped| && nonoptEnd == -1
    {
      ghost var was := nargv[..];
      PermuteArgs(nonoptStart, nonoptEnd, optind, nargv);
      ExchangeSlices(was, nargv[..], nonoptStart, nonoptEnd, optind);
      nonoptStart := optind - (nonoptEnd - nonoptStart);
      nonoptEnd := -1;
    }

    /** Steps over the argument at optind as one of the options. */
    method Take(nargv: array<string>)
      requires Layout(nargv[..]) && optind < nargv.Length && (nonoptStart != -1 ==> nonoptEnd != -1)
      modifies this`optind, this`taken
      ensures Layout(nargv[..]) && (nonoptEnd != -1 ==> nonoptEnd < optind)
      ensures optind == old(optind) + 1 && taken == old(taken) + [given[old(optind)]]
    {
      assert nargv[optind] == nargv[optind..][0] == given[optind..][0];
      assert nargv[optind + 1..] == nargv[optind..][1..];
      optind := optind + 1;
      taken := taken + [given[optind - 1]];
    }

    /** An option at optind ends the block of non-options passed over. */
    method CloseSkipped(nargv: array<string>)
      requires Layout(nargv[..])
      requires nonoptEnd != -1 ==> nonoptEnd < optind
      modifies this`nonoptEnd
      ensures Layout(nargv[..]) && (nonoptStart != -1 ==> nonoptEnd != -1)
    {
      if nonoptStart != -1 && nonoptEnd == -1 {
        nonoptEnd := optind;
      }
    }

    lemma LayoutHere(argv: seq<string>)
      requires Layout(argv)
      ensures |argv| == |given| && 1 <= optind <= |argv|
      ensures optind < |argv| ==> argv[optind] == given[optind]
    {
      if optind < |argv| {
        assert argv[optind] == argv[optind..][0] == given[optind..][0];
      }
    }

    /** Passes over the non-option at optind. */
    method Skip(nargv: array<string>)
      requires Layout(nargv[..]) && optind < nargv.Length
      requires nonoptEnd != -1 ==> nonoptEnd < optind
      modifies nargv, this`nonoptStart, this`nonoptEnd, this`optind, this`skipped
      ensures Layout(nargv[..]) && nonoptStart != -1 && nonoptEnd == -1
      ensures optind == old(optind) + 1 && skipped == old(skipped) + [given[old(optind)]]
    {
      if nonoptStart == -1 {
        nonoptStart := optind;
      } else if nonoptEnd != -1 {
        PermuteSkipped(nargv);
      }
      assert nargv[optind] == nargv[optind..][0] == given[optind..][0];
      assert nargv[optind + 1..] == nargv[optind..][1..];
      optind := optind + 1;
      skipped := skipped + [given[optind - 1]];
    }

    /** The end of the options: the non-options passed over move behind them, optind to their start. */
    method Conclude(nargv: array<string>)
      requires Layout(nargv[..])
      requires nonoptEnd != -1 ==> nonoptEnd < optind
      modifies nargv, this`nonoptStart, this`nonoptEnd, this`optind
      ensures Final(nargv[..], taken, skipped, given[old(optind)..])
    {
      if nonoptEnd != -1 {
        var count := nonoptEnd - nonoptStart;
        PermuteSkipped(nargv);
        optind := optind - count;
      } else if nonoptStart != -1 {
        optind := nonoptStart;
      }
      nonoptStart, nonoptEnd := -1, -1;
    }

    /** getopt_internal, the update of the scanning pointer. True: `place` is at an option. */
    method UpdatePlace(nargv: array<string>, cfg: Config, ghost p: Promise) returns (found: bool, ret: int)
      requires Valid(cfg, nargv[..]) && place == "" && optarg == None
      requires Keeps(cfg, p, [], given, optind, place, taken, skipped)
      modifies this, nargv
      ensures given == old(given)
      ensures found ==>
        && AtOption(cfg, nargv[..]) && optarg == None
        && IsOption(given[optind]) && given[optind] != "--" && place == given[optind][1..]
        && Keeps(cfg, p, [], given, optind, "", taken, skipped)
      ensures !found && ret != END ==>
        Valid(cfg, nargv[..]) && Keeps(cfg, p, [Event(ret, optarg)], given, optind, place, taken, skipped)
      ensures !found && ret == END ==>
        !p.ahead.cut && p.ahead.events == [] && Final(nargv[..], p.Opts(), p.Nons(), p.ahead.rest)
    {
      hide Scan, Keeps, Final, Layout, IsOption, Config.AllArgs, Config.Permute, Promise.Opts, Promise.Nons;
      LayoutHere(nargv[..]);
      while true
        invariant Valid(cfg, nargv[..]) && place == "" && optarg == None
        invariant optind <= |given| == nargv.Length
        invariant Keeps(cfg, p, [], given, optind, place, taken, skipped)
        invariant given == old(given)
        decreases nargv.Length - optind
      {
        if optind >= nargv.Length {
          KeepStop(cfg, p, given, optind, taken, skipped);
          Conclude(nargv);
          return false, END;
        }
        LayoutHere(nargv[..]);
        place := nargv[optind];
        if !IsOption(place) {
          place := "";
          if cfg.AllArgs() {
            KeepInorder(cfg, p, given, optind, taken, skipped);
            optarg := Some(nargv[optind]);
            Take(nargv);
            return false, INORDER;
          }
          if !cfg.Permute() {
            KeepStop(cfg, p, given, optind, taken, skipped);
            FinalHere(nargv[..]);
            return false, END;
          }
          KeepSkip(cfg, p, given, optind, taken, skipped);
          Skip(nargv);
          LayoutHere(nargv[..]);
        } else {
          found := EnterOption(nargv, cfg, p);
          return found, END;
        }
      }
    }

    /** The option at optind, which is already in `place`. False: it is the double dash. */
    method EnterOption(nargv: array<string>, cfg: Config, ghost p: Promise) returns (found: bool)
      requires Layout(nargv[..]) && !optreset && (nonoptEnd != -1 ==> nonoptEnd < optind)
      requires cfg.AllArgs() || !cfg.Permute() ==> nonoptStart == -1
      requires optind < |given| == nargv.Length && place == given[optind] && IsOption(place)
      requires Keeps(cfg, p, [], given, optind, "", taken, skipped)
      modifies this, nargv
      ensures given == old(given) && optarg == old(optarg)
      ensures found ==>
        && AtOption(cfg, nargv[..])
        && IsOption(given[optind]) && given[optind] != "--" && place == given[optind][1..]
        && Keeps(cfg, p, [], given, optind, "", taken, skipped)
      ensures !found ==>
        !p.ahead.cut && p.ahead.events == [] && Final(nargv[..], p.Opts(), p.Nons(), p.ahead.rest)
    {
      hide Scan, Keeps, Final, Layout, IsOption, Config.AllArgs, Config.Permute, Promise.Opts, Promise.Nons;
      CloseSkipped(nargv);
      OptionText(place);
      place := place[1..];
      if place == "-" {
        KeepDashes(cfg, p, given, optind, taken, skipped);
        Take(nargv);
        place := "";
        // here nonoptEnd is set whenever nonoptStart is
        Conclude(nargv);
        return false;
      }
      return true;
    }

    /** getopt_internal, from an option on. */
    method OneOption(nargv: array<string>, cfg: Config, ghost p: Promise) returns (ret: int)
      requires cfg.Valid() && AtOption(cfg, nargv[..]) && optarg == None && place != ""
      requires optind < |given| && IsOption(given[optind])
      requires match OptionStep(cfg, given, optind, place)
               case None => p.ahead.events == [] && p.CutHere(given, optind, taken, skipped)
               case Some(s) => Keeps(cfg, p, [s.event], given, s.next, s.place, taken + given[optind..s.next], skipped)
      modifies this`optind, this`optarg, this`place, this`taken
      ensures ret != END ==>
        Valid(cfg, nargv[..]) && Keeps(cfg, p, [Event(ret, optarg)], given, optind, place, taken, skipped)
      ensures ret == END ==> p.ahead.events == [] && Cut(nargv[..], p)
    {
      hide Keeps, OptionStep, Laid;
      ghost var i := optind;
      LayoutHere(nargv[..]);
      LaidAhead(nargv[..], given, optind, nonoptStart, nonoptEnd, taken, skipped);
      OptionStepLocal(cfg, nargv[..], given, optind, place);
      StepReturns(cfg, given, optind, place);
      var ok;
      ok, ret := NextOption(nargv, cfg);
      if ok {
        LaidAdvance(nargv[..], given, i, optind, nonoptStart, nonoptEnd, taken, skipped);
        taken := taken + given[i..optind];
      }
    }

    /** getopt_internal: one call. */
    method GetoptInternal(nargv: array<string>, cfg: Config) returns (ret: int)
      requires cfg.Valid() && Ready(cfg, nargv[..])
      modifies this, nargv
      ensures given == if old(Restart()) then old(nargv[..]) else old(given)
      ensures ret != END ==>
        && Valid(cfg, nargv[..])
        && Keeps(cfg, old(Pending(cfg, nargv[..])), [Event(ret, optarg)], given, optind, place, taken, skipped)
      ensures ret == END ==>
        old(Pending(cfg, nargv[..])).ahead.events == [] && Over(nargv[..], old(Pending(cfg, nargv[..])))
    {
      ghost var p := Pending(cfg, nargv[..]);
      hide Keeps, OptionStep, Scan, Final, IsOption, Laid, Restart, Promise.Opts, Promise.Nons;
      hide Config.AllArgs, Config.Permute, Config.Valid;
      Begin(nargv, cfg);
      LayoutHere(nargv[..]);
      KeepsHere(cfg, p, given, optind, place, taken, skipped);
      if place == "" {
        var found;
        found, ret := UpdatePlace(nargv, cfg, p);
        if !found {
          return;
        }
        OptionText(given[optind]);
        KeepOption(cfg, p, given, optind, "", taken, skipped);
      } else {
        KeepOption(cfg, p, given, optind, place, taken, skipped);
      }
      ret := OneOption(nargv, cfg, p);
    }

    /** getopt_internal up to the label: starts over where asked to. */
    method Begin(nargv: array<string>, cfg: Config)
      requires Ready(cfg, nargv[..])
      modifies this
      ensures given == if old(Restart()) then old(nargv[..]) else old(given)
      ensures Valid(cfg, nargv[..]) && optarg == None
      ensures old(Pending(cfg, nargv[..])) == Promise(Scan(cfg, given, optind, place), taken, skipped)
    {
      hide Scan;
      if Restart() {
        given, taken, skipped := nargv[..], [], [];
      }
      if optind == 0 {
        optind := 1;
        optreset := true;
      }
      optarg := None;
      if optreset {
        nonoptStart, nonoptEnd := -1, -1;
        place := "";
      }
      optreset := false;
    }

    lemma PendingIsPromise(cfg: Config, argv: seq<string>)
      requires Valid(cfg, argv)
      ensures Pending(cfg, argv) == Promise(Scan(cfg, given, optind, place), taken, skipped)
    {
      if Restart() {
        assert argv == [argv[0]] + argv[1..];
        assert given == [given[0]] + given[1..];
      }
    }

    /** Calls until the end is reported, as a main program does. */
    method Run(nargv: array<string>, cfg: Config) returns (events: seq<Event>)
      requires cfg.Valid() && 1 <= nargv.Length && Restart()
      modifies this, nargv
      ensures var r := old(Scan(cfg, nargv[..], 1, ""));
              && events == r.events
              && nargv[0] == old(nargv[0])
              && multiset(nargv[..]) == multiset(old(nargv[..]))
              && (!r.cut || r.nons == [] <==> nargv[1..] == r.opts + r.nons + r.rest && optind == 1 + |r.opts|)
              && (r.cut ==> SkippedWithin(nargv[1..], r.opts, r.nons, r.rest) && optind == 1 + |r.opts| + |r.nons|)
              && (r.cut ==> optind < nargv.Length && IsOption(nargv[optind]))
    {
      ghost var p := Pending(cfg, nargv[..]);
      assert p == Promise(Scan(cfg, nargv[..], 1, ""), [], []);
      hide *;
      events := [];
      var ret := GetoptInternal(nargv, cfg);
      while ret != END
        invariant ret != END ==>
          Valid(cfg, nargv[..]) && Keeps(cfg, p, events + [Event(ret, optarg)], given, optind, place, taken, skipped)
        invariant ret == END ==> p.ahead.events == events && Over(nargv[..], p)
        invariant given == old(nargv[..])
        decreases |p.ahead.events| - |events|
      {
        events := events + [Event(ret, optarg)];
        ghost var q := Promise(Scan(cfg, given, optind, place), taken, skipped);
        PendingIsPromise(cfg, nargv[..]);
        KeepsMeans(cfg, p, events, given, optind, place, taken, skipped);
        ret := GetoptInternal(nargv, cfg);
        if ret != END {
          KeepsThrough(cfg, p, q, events, [Event(ret, optarg)], given, optind, place, taken, skipped);
        }
      }
      OverIsPermutation(nargv[..], cfg, p);
      OverMeans(nargv[..], p);
    }

    lemma OverMeans(argv: seq<string>, p: Promise)
      requires Over(argv, p) && p.taken == p.skipped == []
      ensures 1 <= |argv| == |given| && argv[0] == given[0]
      ensures var r := p.ahead;
              && (!r.cut || r.nons == [] <==> argv[1..] == r.opts + r.nons + r.rest && optind == 1 + |r.opts|)
              && (r.cut ==> SkippedWithin(argv[1..], r.opts, r.nons, r.rest) && optind == 1 + |r.opts| + |r.nons|)
              && (r.cut ==> optind < |argv| && IsOption(argv[optind]))
    {
      assert p.Opts() == p.ahead.opts && p.Nons() == p.ahead.nons;
      if p.ahead.cut {
        LaidWithin(argv, given, optind, nonoptStart, nonoptEnd, taken, skipped);
      }
    }

    lemma OverIsPermutation(argv: seq<string>, cfg: Config, p: Promise)
      requires 1 <= |given| && p == Promise(Scan(cfg, given, 1, ""), [], [])
      requires Over(argv, p)
      ensures multiset(argv) == multiset(given)
    {
      hide Scan;
      ScanIsPermutation(cfg, given);
      assert given == [given[0]] + given[1..];
      assert p.Opts() == p.ahead.opts && p.Nons() == p.ahead.nons;
      if p.ahead.cut {
        LaidIsPermutation(argv, given, optind, nonoptStart, nonoptEnd, taken, skipped);
      } else {
        assert argv == [argv[0]] + argv[1..];
      }
    }

    lemma FinalHere(argv: seq<string>)
      requires Layout(argv) && nonoptStart == -1
      ensures Final(argv, taken, skipped, given[optind..])
    {
    }
  }

  lemma OptionText(arg: string)
    requires IsOption(arg)
    ensures |arg| >= 2 && (arg == "--" <==> arg[1..] == "-")
  {
  }

  /** What a scan owes in all: what is ahead, after options and non-options already passed. */
  datatype Promise = Promise(ahead: Outcome, taken: seq<string>, skipped: seq<string>) {
    function Opts(): seq<string> { taken + ahead.opts }

    function Nons(): seq<string> { skipped + ahead.nons }

    ghost predicate Owes(p: Promise) {
      Opts() == p.Opts() && Nons() == p.Nons() && ahead.rest == p.ahead.rest && ahead.cut == p.ahead.cut
    }

    ghost predicate CutHere(given: seq<string>, i: nat, t: seq<string>, k: seq<string>)
      requires i <= |given|
    {
      ahead.cut && ahead.rest == given[i..] && Opts() == t && Nons() == k
    }
  }

  /** After the reports `events`, reading on from here gives what `p` owes. */
  ghost predicate Keeps(cfg: Config, p: Promise, events: seq<Event>, given: seq<string>, i: nat, place: string,
                        taken: seq<string>, skipped: seq<string>)
    requires i <= |given| && (place != "" ==> i < |given|)
  {
    var a := Scan(cfg, given, i, place);
    && p.ahead.events == events + a.events
    && p.Opts() == taken + a.opts
    && p.Nons() == skipped + a.nons
    && p.ahead.rest == a.rest
    && p.ahead.cut == a.cut
  }

  lemma KeepsHere(cfg: Config, p: Promise, given: seq<string>, i: nat, place: string, taken: seq<string>, skipped: seq<string>)
    requires i <= |given| && (place != "" ==> i < |given|)
    requires p == Promise(Scan(cfg, given, i, place), taken, skipped)
    ensures Keeps(cfg, p, [], given, i, place, taken, skipped)
  {
  }

  lemma KeepsMeans(cfg: Config, p: Promise, events: seq<Event>, given: seq<string>, i: nat, place: string,
                   taken: seq<string>, skipped: seq<string>)
    requires i <= |given| && (place != "" ==> i < |given|)
    requires Keeps(cfg, p, events, given, i, place, taken, skipped)
    ensures var q := Promise(Scan(cfg, given, i, place), taken, skipped);
            p.ahead.events == events + q.ahead.events && q.Owes(p)
  {
  }

  lemma KeepsThrough(cfg: Config, p: Promise, q: Promise, events: seq<Event>, more: seq<Event>, given: seq<string>, i: nat,
                     place: string, taken: seq<string>, skipped: seq<string>)
    requires i <= |given| && (place != "" ==> i < |given|)
    requires p.ahead.events == events + q.ahead.events && q.Owes(p)
    requires Keeps(cfg, q, more, given, i, place, taken, skipped)
    ensures Keeps(cfg, p, events + more, given, i, place, taken, skipped)
  {
  }

  lemma KeepSkip(cfg: Config, p: Promise, given: seq<string>, i: nat, taken: seq<string>, skipped: seq<string>)
    requires i < |given| && !IsOption(given[i]) && !cfg.AllArgs() && cfg.Permute()
    requires Keeps(cfg, p, [], given, i, "", taken, skipped)
    ensures Keeps(cfg, p, [], given, i + 1, "", taken, skipped + [given[i]])
  {
  }

  lemma KeepInorder(cfg: Config, p: Promise, given: seq<string>, i: nat, taken: seq<string>, skipped: seq<string>)
    requires i < |given| && !IsOption(given[i]) && cfg.AllArgs()
    requires Keeps(cfg, p, [], given, i, "", taken, skipped)
    ensures Keeps(cfg, p, [Event(INORDER, Some(given[i]))], given, i + 1, "", taken + [given[i]], skipped)
  {
  }

  /** The end of the vector, and a non-option that ends the scan. */
  lemma KeepStop(cfg: Config, p: Promise, given: seq<string>, i: nat, taken: seq<string>, skipped: seq<string>)
    requires i <= |given|
    requires i < |given| ==> !IsOption(given[i]) && !cfg.AllArgs() && !cfg.Permute()
    requires Keeps(cfg, p, [], given, i, "", taken, skipped)
    ensures !p.ahead.cut && p.ahead.events == [] && p.ahead.rest == given[i..]
    ensures p.Opts() == taken && p.Nons() == skipped
  {
  }

  lemma KeepDashes(cfg: Config, p: Promise, given: seq<string>, i: nat, taken: seq<string>, skipped: seq<string>)
    requires i < |given| && given[i] == "--"
    requires Keeps(cfg, p, [], given, i, "", taken, skipped)
    ensures !p.ahead.cut && p.ahead.events == [] && p.ahead.rest == given[i + 1..]
    ensures p.Opts() == taken + [given[i]] && p.Nons() == skipped
  {
  }

  lemma KeepOption(cfg: Config, p: Promise, given: seq<string>, i: nat, place: string, taken: seq<string>, skipped: seq<string>)
    requires i < |given| && (place == "" ==> IsOption(given[i]) && given[i] != "--")
    requires Keeps(cfg, p, [], given, i, place, taken, skipped)
    ensures match OptionStep(cfg, given, i, if place == "" then given[i][1..] else place)
            case None => p.ahead.events == [] && p.CutHere(given, i, taken, skipped)
            case Some(s) => Keeps(cfg, p, [s.event], given, s.next, s.place, taken + given[i..s.next], skipped)
  {
  }

  lemma ExchangeSlices(was: seq<string>, now: seq<string>, start: nat, mid: nat, end: nat)
    requires 1 <= start <= mid < end <= |was|
    requires now == Exchanged(was, start, mid, end)
    ensures |now| == |was| && now[0] == was[0] && now[end..] == was[end..]
    ensures var m := end - (mid - start); now[1..m] == was[1..start] + was[mid..end] && now[m..end] == was[start..mid]
  {
  }

  /** A call is handed back with -1 only to try the short options. */
  lemma LongReturns(cfg: Config, args: seq<string>, i: nat, text: string, shortToo: bool)
    requires cfg.Valid() && cfg.longOptions.Some? && i < |args|
    ensures var s := LongStep(cfg, cfg.longOptions.value, args, i, text, shortToo);
            s.event.ret == END <==> s.next == i
    ensures var s := LongStep(cfg, cfg.longOptions.value, args, i, text, shortToo);
            s.next == i ==> s.event.arg == None
  {
  }
}
