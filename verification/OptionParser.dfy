// The option parser (hypothesizer/optionparser.h): which elements of the argument vector belong to
// options, and how the vector is permuted so that the others come last.

module OptionLookup {
  import opened Wrappers

  // An argument is attached to its option, or it is the next element of the argument vector.
  datatype Arg = NoArg | Attached(text: string) | Detached(text: string)

  // What a Descriptor's check_arg and the action see of an option: its descriptor, the element it was
  // found in and the position there, and its argument.
  datatype Seen = Seen(desc: nat, param: string, pos: nat, arg: Arg)

  datatype Status = ArgNone | ArgOk | ArgIgnore | ArgIllegal

  // An entry of the usage table; the terminating entry is the end of the sequence.
  datatype Descriptor = Descriptor(shortopt: string, longopt: string, checkArg: Seen -> Status)

  type Usage = seq<Descriptor>

  datatype Settings = Settings(singleMinusLongopt: bool, minAbbrLen: int)

  // st2 is st1, or st1 with an attached argument.
  predicate StrEq(st1: string, st2: string) {
    st1 <= st2 && (|st2| == |st1| || st2[|st1|] == '=')
  }

  method IsStrEq(st1: string, st2: string) returns (b: bool)
    ensures b <==> StrEq(st1, st2)
  {
    var i := 0;
    while i < |st1|
      invariant i <= |st1| && i <= |st2| && st1[..i] == st2[..i]
    {
      if i == |st2| || st1[i] != st2[i] {
        return false;
      }
      i := i + 1;
    }
    assert st1[..i] == st1;
    return i == |st2| || st2[i] == '=';
  }

  function Common(st1: string, st2: string): (k: nat)
    ensures k <= |st1| && k <= |st2|
  {
    if st1 != "" && st2 != "" && st1[0] == st2[0] then 1 + Common(st1[1..], st2[1..]) else 0
  }

  lemma {:induction false} CommonIs(st1: string, st2: string)
    ensures var k := Common(st1, st2);
      st1[..k] == st2[..k] && (k < |st1| && k < |st2| ==> st1[k] != st2[k])
  {
    if st1 != "" && st2 != "" && st1[0] == st2[0] {
      CommonIs(st1[1..], st2[1..]);
      var k := Common(st1[1..], st2[1..]);
      assert st1[..k + 1] == [st1[0]] + st1[1..][..k] && st2[..k + 1] == [st2[0]] + st2[1..][..k];
    }
  }

  // st2 abbreviates st1 to at least min characters.
  predicate StrEqAbbr(st1: string, st2: string, min: int) {
    var k := Common(st1, st2);
    (k == |st1| || (min > 0 && k >= min)) && (k == |st2| || st2[k] == '=')
  }

  method IsStrEqAbbr(st1: string, st2: string, min: int) returns (b: bool)
    ensures b <==> StrEqAbbr(st1, st2, min)
  {
    var i := 0;
    while i < |st1| && i < |st2| && st1[i] == st2[i]
      invariant i <= |st1| && i <= |st2| && Common(st1, st2) == i + Common(st1[i..], st2[i..])
    {
      assert st1[i..][1..] == st1[i + 1..] && st2[i..][1..] == st2[i + 1..];
      i := i + 1;
    }
    return (i == |st1| || (min > 0 && i >= min)) && (i == |st2| || st2[i] == '=');
  }

  // The first matching descriptor from i on, or the number of descriptors.
  function FirstLong(u: Usage, name: string, i: nat): (k: nat)
    requires i <= |u|
    ensures i <= k <= |u|
    decreases |u| - i
  {
    if i == |u| || StrEq(u[i].longopt, name) then i else FirstLong(u, name, i + 1)
  }

  function FirstAbbr(u: Usage, name: string, min: int, i: nat): (k: nat)
    requires i <= |u|
    ensures i <= k <= |u|
    decreases |u| - i
  {
    if i == |u| || StrEqAbbr(u[i].longopt, name, min) then i else FirstAbbr(u, name, min, i + 1)
  }

  function FirstShort(u: Usage, ch: char, i: nat): (k: nat)
    requires i <= |u|
    ensures i <= k <= |u|
    decreases |u| - i
  {
    if i == |u| || ch in u[i].shortopt then i else FirstShort(u, ch, i + 1)
  }

  // The descriptor for unknown options.
  function FirstDummy(u: Usage, i: nat): (k: nat)
    requires i <= |u|
    ensures i <= k <= |u|
    decreases |u| - i
  {
    if i == |u| || (u[i].shortopt == "" && u[i].longopt == "") then i else FirstDummy(u, i + 1)
  }

  // An exact match, or else the only abbreviation.
  function LongIndex(u: Usage, name: string, min: int): (k: nat)
    ensures k <= |u|
  {
    var exact := FirstLong(u, name, 0);
    if exact < |u| || min <= 0 then exact
    else
      var abbr := FirstAbbr(u, name, min, 0);
      if abbr < |u| && FirstAbbr(u, name, min, abbr + 1) == |u| then abbr else |u|
  }

  method FindLong(u: Usage, name: string, min: int) returns (idx: nat)
    ensures idx == LongIndex(u, name, min)
  {
    idx := 0;
    while idx < |u|
      invariant idx <= |u| && FirstLong(u, name, 0) == FirstLong(u, name, idx)
    {
      var b := IsStrEq(u[idx].longopt, name);
      if b { break; }
      idx := idx + 1;
    }
    if idx == |u| && min > 0 {
      var i1 := FindAbbr(u, name, min, 0);
      if i1 != |u| {
        var i2 := FindAbbr(u, name, min, i1 + 1);
        if i2 == |u| {
          idx := i1;
        }
      }
    }
  }

  method FindAbbr(u: Usage, name: string, min: int, from: nat) returns (i: nat)
    requires from <= |u|
    ensures i == FirstAbbr(u, name, min, from)
  {
    i := from;
    while i < |u|
      invariant i <= |u| && FirstAbbr(u, name, min, from) == FirstAbbr(u, name, min, i)
    {
      var b := IsStrEqAbbr(u[i].longopt, name, min);
      if b { break; }
      i := i + 1;
    }
  }

  // The first descriptor of that name.
  ghost predicate FirstExact(u: Usage, name: string, i: nat) {
    i < |u| && StrEq(u[i].longopt, name) && forall j :: 0 <= j < i ==> !StrEq(u[j].longopt, name)
  }

  ghost predicate OnlyAbbr(u: Usage, name: string, min: int, i: nat) {
    i < |u| && StrEqAbbr(u[i].longopt, name, min)
    && forall j :: 0 <= j < |u| && j != i ==> !StrEqAbbr(u[j].longopt, name, min)
  }

  // What a long name means: a descriptor of that name, or else the only one it abbreviates.
  ghost predicate LongMatch(u: Usage, name: string, min: int, i: nat) {
    FirstExact(u, name, i) || (min > 0 && OnlyAbbr(u, name, min, i) && forall j :: 0 <= j < |u| ==> !StrEq(u[j].longopt, name))
  }

  ghost predicate ShortMatch(u: Usage, ch: char, i: nat) {
    i < |u| && ch in u[i].shortopt && forall j :: 0 <= j < i ==> ch !in u[j].shortopt
  }

  ghost predicate DummyMatch(u: Usage, i: nat) {
    i < |u| && u[i].shortopt == u[i].longopt == "" && forall j :: 0 <= j < i ==> u[j].shortopt != "" || u[j].longopt != ""
  }

  lemma {:induction false} FirstLongIs(u: Usage, name: string, i: nat)
    requires i <= |u|
    ensures var k := FirstLong(u, name, i);
      (k < |u| ==> StrEq(u[k].longopt, name)) && forall j :: i <= j < k ==> !StrEq(u[j].longopt, name)
    decreases |u| - i
  {
    if i < |u| && !StrEq(u[i].longopt, name) {
      FirstLongIs(u, name, i + 1);
    }
  }

  lemma {:induction false} FirstAbbrIs(u: Usage, name: string, min: int, i: nat)
    requires i <= |u|
    ensures var k := FirstAbbr(u, name, min, i);
      (k < |u| ==> StrEqAbbr(u[k].longopt, name, min)) && forall j :: i <= j < k ==> !StrEqAbbr(u[j].longopt, name, min)
    decreases |u| - i
  {
    if i < |u| && !StrEqAbbr(u[i].longopt, name, min) {
      FirstAbbrIs(u, name, min, i + 1);
    }
  }

  lemma {:induction false} LongIndexIs(u: Usage, name: string, min: int)
    ensures forall i: nat :: i < |u| ==> (LongIndex(u, name, min) == i <==> LongMatch(u, name, min, i))
  {
    hide StrEq, StrEqAbbr, FirstLong, FirstAbbr;
    FirstLongIs(u, name, 0);
    FirstAbbrIs(u, name, min, 0);
    var abbr := FirstAbbr(u, name, min, 0);
    if abbr < |u| {
      FirstAbbrIs(u, name, min, abbr + 1);
    }
  }

  lemma {:induction false} FirstShortIs(u: Usage, ch: char, i: nat)
    requires i <= |u| && forall j :: 0 <= j < i ==> ch !in u[j].shortopt
    ensures var k := FirstShort(u, ch, i);
      (k < |u| ==> ShortMatch(u, ch, k)) && (k == |u| ==> forall j :: 0 <= j < |u| ==> ch !in u[j].shortopt)
    decreases |u| - i
  {
    if i < |u| && ch !in u[i].shortopt {
      FirstShortIs(u, ch, i + 1);
    }
  }

  lemma {:induction false} FirstDummyIs(u: Usage, i: nat)
    requires i <= |u| && forall j :: 0 <= j < i ==> u[j].shortopt != "" || u[j].longopt != ""
    ensures var k := FirstDummy(u, i);
      && (k < |u| ==> DummyMatch(u, k))
      && (k == |u| ==> forall j :: 0 <= j < |u| ==> u[j].shortopt != "" || u[j].longopt != "")
    decreases |u| - i
  {
    if i < |u| && !(u[i].shortopt == "" && u[i].longopt == "") {
      FirstDummyIs(u, i + 1);
    }
  }

  function Separate(next: Option<string>): Arg {
    if next.Some? then Detached(next.value) else NoArg
  }

  // What follows '=', or else the next element.
  function LongArg(name: string, next: Option<string>): Arg {
    if name == "" then Separate(next) else if name[0] == '=' then Attached(name[1..]) else LongArg(name[1..], next)
  }

  function LongName(param: string): string
    requires |param| >= 2
  {
    if param[1] == '-' then param[2..] else param[1..]
  }

  // One round of the loop over a group: the end of the group, or a descriptor (or none), an argument, and
  // whether there may be more options in the group.
  datatype Found = End | Found(desc: nat, pos: nat, arg: Arg, short: bool)

  function Look(u: Usage, o: Settings, param: string, pos: nat, short: bool, tryLong: bool,
      next: Option<string>): (r: Found)
    requires |param| >= 2 && pos < |param|
    ensures r.Found? ==> r.desc <= |u| && pos <= r.pos < |param| && (r.short ==> pos < r.pos)
  {
    var long := if !short || tryLong then LongIndex(u, LongName(param), o.minAbbrLen) else |u|;
    if !short || long < |u| then Found(Known(u, long), pos, LongArg(LongName(param), next), false)
    else if pos + 1 == |param| then End
    else
      var p := pos + 1;
      Found(Known(u, FirstShort(u, param[p], 0)), p, if p + 1 == |param| then Separate(next) else Attached(param[p + 1..]), true)
  }

  function Known(u: Usage, desc: nat): (k: nat)
    requires desc <= |u|
    ensures k <= |u|
  {
    if desc < |u| then desc else FirstDummy(u, 0)
  }

  // The argument of a long option follows the first '=', or is the next element.
  lemma {:induction false} LongArgIs(name: string, next: Option<string>)
    ensures '=' !in name ==> LongArg(name, next) == Separate(next)
    ensures forall i :: 0 <= i < |name| && name[i] == '=' && (forall j :: 0 <= j < i ==> name[j] != '=') ==>
      LongArg(name, next) == Attached(name[i + 1..])
  {
    forall i | 0 <= i < |name| && name[i] == '=' && (forall j :: 0 <= j < i ==> name[j] != '=')
      ensures LongArg(name, next) == Attached(name[i + 1..])
    {
      LongArgAt(name, next, i);
    }
    if '=' !in name && name != "" {
      LongArgIs(name[1..], next);
    }
  }

  lemma {:induction false} LongArgAt(name: string, next: Option<string>, i: nat)
    requires i < |name| && name[i] == '=' && forall j :: 0 <= j < i ==> name[j] != '='
    ensures LongArg(name, next) == Attached(name[i + 1..])
  {
    if i > 0 {
      var rest := name[1..];
      assert rest[i - 1] == name[i] && forall j :: 0 <= j < i - 1 ==> rest[j] == name[j + 1];
      LongArgAt(rest, next, i - 1);
      assert rest[i..] == name[i + 1..];
    }
  }

  // What an option means: the element as a long option, or the character at p.
  ghost predicate Designates(u: Usage, o: Settings, param: string, p: nat, short: bool, i: nat)
    requires |param| >= 2 && p < |param|
  {
    if short then ShortMatch(u, param[p], i) else LongMatch(u, LongName(param), o.minAbbrLen, i)
  }

  // A round of a group: a long option if it is to be or, when it may be, if there is one of that name;
  // else the next character, if there is one.  What means nothing goes to the descriptor without names.
  lemma {:induction false} LookIs(u: Usage, o: Settings, param: string, pos: nat, short: bool, tryLong: bool,
      next: Option<string>)
    requires |param| >= 2 && pos < |param|
    ensures var f := Look(u, o, param, pos, short, tryLong, next);
      var long := !short || (tryLong && exists i: nat :: LongMatch(u, LongName(param), o.minAbbrLen, i));
      && (f.End? <==> !long && pos + 1 == |param|)
      && (f.Found? ==>
            && f.short == !long && f.pos == (if long then pos else pos + 1)
            && f.arg == (if long then LongArg(LongName(param), next)
                         else if f.pos + 1 == |param| then Separate(next) else Attached(param[f.pos + 1..]))
            && (forall i: nat :: Designates(u, o, param, f.pos, f.short, i) ==> f.desc == i)
            && (f.desc < |u| ==> Designates(u, o, param, f.pos, f.short, f.desc) || DummyMatch(u, f.desc))
            && (f.desc == |u| ==> forall i: nat :: !DummyMatch(u, i)))
  {
    hide FirstShort, FirstDummy, LongIndex, LongMatch, LongName, LongArg;
    var name := LongName(param);
    LongIndexIs(u, name, o.minAbbrLen);
    MatchesAreKnown(u, name, o.minAbbrLen);
    var k := LongIndex(u, name, o.minAbbrLen);
    assert k < |u| ==> LongMatch(u, name, o.minAbbrLen, k);
    FirstDummyIs(u, 0);
    if pos + 1 < |param| {
      FirstShortIs(u, param[pos + 1], 0);
    }
  }

  lemma {:induction false} MatchesAreKnown(u: Usage, name: string, min: int)
    ensures forall i: nat :: LongMatch(u, name, min, i) ==> i < |u|
  {
  }

  method LookUp(u: Usage, o: Settings, param: string, pos: nat, short: bool, tryLong: bool,
      next: Option<string>) returns (r: Found)
    requires |param| >= 2 && pos < |param|
    ensures r == Look(u, o, param, pos, short, tryLong, next)
  {
    var handleShort, idx, optarg, p := short, 0, NoArg, pos;
    if !handleShort || tryLong {
      var name := LongName(param);
      idx := FindLong(u, name, o.minAbbrLen);
      if idx < |u| {
        handleShort := false;
      }
      optarg := FindLongArg(name, next);
    }
    if handleShort {
      p := p + 1;
      if p == |param| {
        return End;
      }
      idx := 0;
      while idx < |u| && param[p] !in u[idx].shortopt
        invariant idx <= |u| && FirstShort(u, param[p], 0) == FirstShort(u, param[p], idx)
      {
        idx := idx + 1;
      }
      optarg := if p + 1 == |param| then Separate(next) else Attached(param[p + 1..]);
    }
    if idx == |u| {
      idx := 0;
      while idx < |u| && !(u[idx].shortopt == "" && u[idx].longopt == "")
        invariant idx <= |u| && FirstDummy(u, 0) == FirstDummy(u, idx)
      {
        idx := idx + 1;
      }
    }
    return Found(idx, p, optarg, handleShort);
  }

  method FindLongArg(name: string, next: Option<string>) returns (optarg: Arg)
    ensures optarg == LongArg(name, next)
  {
    var i := 0;
    assert name[0..] == name;
    while i < |name| && name[i] != '='
      invariant i <= |name| && LongArg(name, next) == LongArg(name[i..], next)
    {
      assert name[i..][1..] == name[i + 1..];
      i := i + 1;
    }
    if i < |name| {
      assert name[i..][1..] == name[i + 1..];
      return Attached(name[i + 1..]);
    }
    return Separate(next);
  }

  // What check_arg makes of it.
  datatype Settled = Illegal | Settled(seen: seq<Seen>, took: bool, stop: bool)

  function Settle(u: Usage, desc: nat, param: string, pos: nat, arg: Arg): (r: Settled)
    requires desc <= |u|
    ensures r.Settled? && r.took ==> arg.Detached? && r.stop
  {
    if desc == |u| then Settled([], false, false)
    else
      var s := Seen(desc, param, pos, arg);
      match u[desc].checkArg(s)
      case ArgIllegal => Illegal
      case ArgOk => Settled([s], arg.Detached?, true)
      case _ => Settled([s.(arg := NoArg)], false, false)
  }

  // What becomes of a whole element with options: the parse is aborted, or the options in it are seen and
  // the next element is taken as an argument or not.
  datatype Eaten = Fatal | Eaten(seen: seq<Seen>, took: bool)

  function Behind(seen: seq<Seen>, e: Eaten): Eaten {
    if e.Fatal? then Fatal else Eaten(seen + e.seen, e.took)
  }

  function Eat(u: Usage, o: Settings, param: string, pos: nat, short: bool, tryLong: bool, next: Option<string>): (r: Eaten)
    requires |param| >= 2 && pos < |param|
    ensures r.Eaten? && r.took ==> next.Some?
    decreases |param| - pos
  {
    var f := Look(u, o, param, pos, short, tryLong, next);
    if f.End? then Eaten([], false)
    else
      var s := Settle(u, f.desc, param, f.pos, f.arg);
      if s.Illegal? then Fatal
      else if s.stop || !f.short then
        TookNext(u, o, param, pos, short, tryLong, next);
        Eaten(s.seen, s.took)
      else Behind(s.seen, Eat(u, o, param, f.pos, true, false, next))
  }

  lemma {:induction false} TookNext(u: Usage, o: Settings, param: string, pos: nat, short: bool, tryLong: bool,
      next: Option<string>)
    requires |param| >= 2 && pos < |param|
    ensures var f := Look(u, o, param, pos, short, tryLong, next); f.Found? && f.arg.Detached? ==> next.Some?
  {
    LongArgNext(LongName(param), next);
  }

  lemma {:induction false} LongArgNext(name: string, next: Option<string>)
    ensures LongArg(name, next).Detached? ==> next.Some?
  {
    if name != "" && name[0] != '=' {
      LongArgNext(name[1..], next);
    }
  }

  // ----- the options of one element, place by place ----------------------------------------------------

  // The element is a group of short options; else it is one long option.
  ghost predicate IsGroup(u: Usage, o: Settings, param: string)
    requires |param| >= 2
  {
    param[1] != '-' && !(o.singleMinusLongopt && exists i: nat :: LongMatch(u, LongName(param), o.minAbbrLen, i))
  }

  // What check_arg is asked about the option at s.pos.
  ghost predicate Offered(u: Usage, o: Settings, param: string, next: Option<string>, s: Seen)
    requires |param| >= 2
  {
    var short := IsGroup(u, o, param);
    && s.param == param && s.pos < |param| && s.desc < |u| && (short <==> s.pos > 0)
    && (Designates(u, o, param, s.pos, short, s.desc)
        || (DummyMatch(u, s.desc) && forall i: nat :: !Designates(u, o, param, s.pos, short, i)))
    && s.arg == if !short then LongArg(LongName(param), next)
                else if s.pos + 1 < |param| then Attached(param[s.pos + 1..])
                else if next.Some? then Detached(next.value) else NoArg
  }

  predicate Answers(u: Usage, s: Seen, status: Status) {
    s.desc < |u| && u[s.desc].checkArg(s) == status
  }

  predicate Passed(u: Usage, s: Seen) {
    Answers(u, s, ArgNone) || Answers(u, s, ArgIgnore)
  }

  // The options before it in its element have no arguments.
  ghost predicate Reached(u: Usage, o: Settings, param: string, next: Option<string>, s: Seen)
    requires |param| >= 2
  {
    Offered(u, o, param, next, s) && forall t: Seen :: Offered(u, o, param, next, t) && t.pos < s.pos ==> Passed(u, t)
  }

  // An option that is not illegal, as it is stored: with its argument only if that was accepted.
  ghost predicate Kept(u: Usage, o: Settings, param: string, next: Option<string>, x: Seen)
    requires |param| >= 2
  {
    exists s :: Reached(u, o, param, next, s) && !Answers(u, s, ArgIllegal)
                && x == if Answers(u, s, ArgOk) then s else s.(arg := NoArg)
  }

  // The element's argument is the next element.
  ghost predicate TakesNext(u: Usage, o: Settings, param: string, next: Option<string>)
    requires |param| >= 2
  {
    exists s: Seen :: Reached(u, o, param, next, s) && Answers(u, s, ArgOk) && s.arg.Detached?
  }

  ghost predicate Refuses(u: Usage, o: Settings, param: string, next: Option<string>)
    requires |param| >= 2
  {
    exists s: Seen :: Reached(u, o, param, next, s) && Answers(u, s, ArgIllegal)
  }

  predicate ByPlace(seen: seq<Seen>) {
    forall i, j :: 0 <= i < j < |seen| ==> seen[i].pos < seen[j].pos
  }

  // What is offered at a place is what the round that comes there finds.
  lemma {:induction false} LookOffers(u: Usage, o: Settings, param: string, pos: nat, short: bool, tryLong: bool,
      next: Option<string>)
    requires |param| >= 2 && pos < |param|
    requires pos == 0 ==> short == (param[1] != '-') && tryLong == o.singleMinusLongopt
    requires pos > 0 ==> short && !tryLong && IsGroup(u, o, param)
    ensures var f, short := Look(u, o, param, pos, short, tryLong, next), IsGroup(u, o, param);
      && (f.End? <==> short && pos + 1 == |param|)
      && (f.Found? ==> f.short == short && f.pos == if short then pos + 1 else 0)
      && (f.Found? ==> forall s: Seen :: s.pos == f.pos ==>
            (Offered(u, o, param, next, s) <==> f.desc < |u| && s == Seen(f.desc, param, f.pos, f.arg)))
  {
    hide Look, LongMatch, ShortMatch, LongArg, LongName;
    LookIs(u, o, param, pos, short, tryLong, next);
    var f := Look(u, o, param, pos, short, tryLong, next);
    if f.Found? {
      var group := IsGroup(u, o, param);
      assert forall i: nat :: Designates(u, o, param, f.pos, group, i) ==> f.desc == i;
      forall s: Seen | s.pos == f.pos && Offered(u, o, param, next, s)
        ensures f.desc < |u| && s == Seen(f.desc, param, f.pos, f.arg)
      {
        assert Designates(u, o, param, s.pos, group, f.desc) || Designates(u, o, param, s.pos, group, s.desc)
            || (DummyMatch(u, s.desc) && !Designates(u, o, param, s.pos, group, f.desc));
      }
      if f.desc < |u| {
        assert Designates(u, o, param, f.pos, group, f.desc) || DummyMatch(u, f.desc);
      }
    }
  }

  // What is before the next place has been passed.
  ghost predicate PassedUpTo(u: Usage, o: Settings, param: string, next: Option<string>, pos: nat)
    requires |param| >= 2
  {
    pos > 0 ==> forall t: Seen :: Offered(u, o, param, next, t) && t.pos <= pos ==> Passed(u, t)
  }

  // From pos on, the element is eaten as the rules say.
  ghost predicate EatenFrom(u: Usage, o: Settings, param: string, next: Option<string>, pos: nat, e: Eaten)
    requires |param| >= 2
  {
    && (e.Fatal? <==> Refuses(u, o, param, next))
    && (e.Eaten? ==>
          && (e.took <==> TakesNext(u, o, param, next)) && ByPlace(e.seen)
          && forall x: Seen :: x in e.seen <==> Kept(u, o, param, next, x) && (pos == 0 || x.pos > pos))
  }

  // Nothing is offered at a place from here on.
  lemma {:induction false} NothingLeft(u: Usage, o: Settings, param: string, next: Option<string>, pos: nat)
    requires |param| >= 2 && PassedUpTo(u, o, param, next, pos)
    requires forall t: Seen :: Offered(u, o, param, next, t) ==> pos > 0 && t.pos <= pos
    ensures EatenFrom(u, o, param, next, pos, Eaten([], false))
  {
    hide Offered;
  }

  // One option that ends the element.
  lemma {:induction false} LastOne(u: Usage, o: Settings, param: string, next: Option<string>, pos: nat, s: Seen)
    requires |param| >= 2 && PassedUpTo(u, o, param, next, pos) && Offered(u, o, param, next, s)
    requires forall t: Seen :: Offered(u, o, param, next, t) ==> t == s || (pos > 0 && t.pos <= pos) || t.pos > s.pos
    requires pos == 0 || s.pos > pos
    ensures Answers(u, s, ArgIllegal) ==> EatenFrom(u, o, param, next, pos, Fatal)
    ensures Answers(u, s, ArgOk) ==> EatenFrom(u, o, param, next, pos, Eaten([s], s.arg.Detached?))
    ensures Passed(u, s) && (forall t: Seen :: Offered(u, o, param, next, t) ==> t.pos <= s.pos) ==>
      EatenFrom(u, o, param, next, pos, Eaten([s.(arg := NoArg)], false))
  {
    hide Offered;
    assert Reached(u, o, param, next, s);
  }

  // One that does not.
  lemma {:induction false} OneMore(u: Usage, o: Settings, param: string, next: Option<string>, pos: nat, s: Seen, e: Eaten)
    requires |param| >= 2 && PassedUpTo(u, o, param, next, pos) && Offered(u, o, param, next, s)
    requires forall t: Seen :: Offered(u, o, param, next, t) ==> t == s || (pos > 0 && t.pos <= pos) || t.pos > s.pos
    requires s.pos > pos && Passed(u, s) && EatenFrom(u, o, param, next, s.pos, e)
    ensures EatenFrom(u, o, param, next, pos, Behind([s.(arg := NoArg)], e))
  {
    hide Offered;
    assert Reached(u, o, param, next, s);
  }

  // What an element with options does, without rounds: the options in it are offered by place; those
  // without an argument are passed, the first other one ends the element or the parse.
  lemma {:induction false} EatIs(u: Usage, o: Settings, param: string, pos: nat, short: bool, tryLong: bool,
      next: Option<string>)
    requires |param| >= 2 && pos < |param| && PassedUpTo(u, o, param, next, pos)
    requires pos == 0 ==> short == (param[1] != '-') && tryLong == o.singleMinusLongopt
    requires pos > 0 ==> short && !tryLong && IsGroup(u, o, param)
    ensures EatenFrom(u, o, param, next, pos, Eat(u, o, param, pos, short, tryLong, next))
    decreases |param| - pos
  {
    hide Look, EatenFrom, IsGroup, Designates, DummyMatch, LongArg, LongName;
    LookOffers(u, o, param, pos, short, tryLong, next);
    var f := Look(u, o, param, pos, short, tryLong, next);
    if f.End? || (f.desc == |u| && !f.short) {
      NothingLeft(u, o, param, next, pos);
    } else if f.desc == |u| {
      EatIs(u, o, param, f.pos, true, false, next);
      NoneThere(u, o, param, next, pos, Eat(u, o, param, f.pos, true, false, next));
    } else {
      var s := Seen(f.desc, param, f.pos, f.arg);
      assert Offered(u, o, param, next, s);
      LastOne(u, o, param, next, pos, s);
      if Passed(u, s) && f.short {
        EatIs(u, o, param, f.pos, true, false, next);
        OneMore(u, o, param, next, pos, s, Eat(u, o, param, f.pos, true, false, next));
      }
    }
  }

  lemma {:induction false} NoneThere(u: Usage, o: Settings, param: string, next: Option<string>, pos: nat, e: Eaten)
    requires |param| >= 2 && EatenFrom(u, o, param, next, pos + 1, e)
    requires forall t: Seen :: Offered(u, o, param, next, t) ==> t.pos > 0 && t.pos != pos + 1
    ensures EatenFrom(u, o, param, next, pos, Behind([], e))
  {
    hide Offered;
    assert e.Eaten? ==> [] + e.seen == e.seen;
  }
}

module OptionParser {
  import opened Wrappers
  import opened OptionLookup

  // What a scan of the arguments finds: which of them belong to options, and the options; or that the
  // parse is aborted.
  datatype Scanned = Aborted | Scanned(flags: seq<bool>, seen: seq<Seen>)

  // A lone minus is not an option.
  predicate IsNonOption(param: string) {
    param == "" || param[0] != '-' || |param| == 1
  }

  predicate IsTerminator(param: string) {
    param == "--"
  }

  function All(b: bool, n: nat): (r: seq<bool>)
    ensures |r| == n && forall i :: 0 <= i < n ==> r[i] == b
  {
    seq(n, i => b)
  }

  function After(flags: seq<bool>, seen: seq<Seen>, rest: Scanned): Scanned {
    if rest.Aborted? then Aborted else Scanned(flags + rest.flags, seen + rest.seen)
  }

  lemma {:induction false} AfterAfter(f: seq<bool>, x: seq<Seen>, g: seq<bool>, y: seq<Seen>, rest: Scanned)
    ensures After(f, x, After(g, y, rest)) == After(f + g, x + y, rest)
  {
    if rest.Scanned? {
      assert f + (g + rest.flags) == f + g + rest.flags;
      assert x + (y + rest.seen) == x + y + rest.seen;
    }
  }

  function Following(args: seq<string>): Option<string>
    requires args != []
  {
    if |args| > 1 then Some(args[1]) else None
  }

  function EatFirst(u: Usage, o: Settings, args: seq<string>): (r: Eaten)
    requires args != [] && !IsNonOption(args[0])
    ensures r.Eaten? && r.took ==> |args| > 1
  {
    Eat(u, o, args[0], 0, args[0][1] != '-', o.singleMinusLongopt, Following(args))
  }

  // The rules for the options of the first element.
  lemma {:induction false} EatFirstIs(u: Usage, o: Settings, args: seq<string>)
    requires args != [] && !IsNonOption(args[0])
    ensures var e, next := EatFirst(u, o, args), Following(args);
      && (e.Fatal? <==> Refuses(u, o, args[0], next))
      && (e.Eaten? ==>
            && (e.took <==> TakesNext(u, o, args[0], next)) && ByPlace(e.seen)
            && forall x: Seen :: x in e.seen <==> Kept(u, o, args[0], next, x))
  {
    hide Eat, Refuses, TakesNext, Kept, Offered;
    EatIs(u, o, args[0], 0, args[0][1] != '-', o.singleMinusLongopt, Following(args));
  }

  ghost function Scan(gnu: bool, u: Usage, o: Settings, args: seq<string>): (r: Scanned)
    ensures r.Scanned? ==> |r.flags| == |args|
    decreases |args|
  {
    if args == [] then Scanned([], [])
    else if IsNonOption(args[0]) then
      if gnu then After([false], [], Scan(gnu, u, o, args[1..])) else Scanned(All(false, |args|), [])
    else if IsTerminator(args[0]) then Scanned([true] + All(false, |args| - 1), [])
    else
      match EatFirst(u, o, args)
      case Fatal => Aborted
      case Eaten(seen, took) =>
        if took then After([true, true], seen, Scan(gnu, u, o, args[2..]))
        else After([true], seen, Scan(gnu, u, o, args[1..]))
  }

  // ----- what the flags mean -----------------------------------------------------------------------

  // What an element of the vector is: an option or a group of them, an argument of the option before it,
  // the terminator, or none of these.
  datatype Role = Opt | Argument | Terminator | Other

  // Nothing behind such an element is an option: the terminator, and unless in GNU mode any non-option.
  predicate Closes(gnu: bool, role: Role) {
    role.Terminator? || (!gnu && role.Other?)
  }

  // The option at i takes the next element as its argument.
  ghost predicate Takes(u: Usage, o: Settings, args: seq<string>, roles: seq<Role>, i: nat)
    requires i < |args| && i < |roles|
  {
    roles[i].Opt? && !IsNonOption(args[i]) && TakesNext(u, o, args[i], Following(args[i..]))
  }

  // The role of element i, from those before it; closed and took tell what came before the vector.
  ghost function RoleAt(gnu: bool, u: Usage, o: Settings, args: seq<string>, roles: seq<Role>, closed: bool, took: bool,
      i: nat): Role
    requires i < |args| && i <= |roles|
  {
    if closed || (exists j :: 0 <= j < i && Closes(gnu, roles[j])) then Other
    else if (if i == 0 then took else Takes(u, o, args, roles, i - 1)) then Argument
    else if IsNonOption(args[i]) then Other
    else if IsTerminator(args[i]) then Terminator
    else Opt
  }

  ghost predicate Roles(gnu: bool, u: Usage, o: Settings, args: seq<string>, roles: seq<Role>, closed: bool, took: bool) {
    |roles| == |args| && forall i :: 0 <= i < |args| ==> roles[i] == RoleAt(gnu, u, o, args, roles, closed, took, i)
  }

  // The rules leave no choice.
  lemma {:induction false} RolesUnique(gnu: bool, u: Usage, o: Settings, args: seq<string>, roles: seq<Role>,
      other: seq<Role>, closed: bool, took: bool, n: nat)
    requires Roles(gnu, u, o, args, roles, closed, took) && Roles(gnu, u, o, args, other, closed, took) && n <= |args|
    ensures roles[..n] == other[..n]
  {
    hide Refuses, TakesNext, EatFirst, IsNonOption, IsTerminator;
    if n > 0 {
      RolesUnique(gnu, u, o, args, roles, other, closed, took, n - 1);
      forall j | 0 <= j < n - 1 ensures roles[j] == other[j] { assert roles[..n - 1][j] == other[..n - 1][j]; }
      assert roles[n - 1] == RoleAt(gnu, u, o, args, roles, closed, took, n - 1);
      assert other[n - 1] == RoleAt(gnu, u, o, args, other, closed, took, n - 1);
      assert roles[..n] == roles[..n - 1] + [roles[n - 1]] && other[..n] == other[..n - 1] + [other[n - 1]];
    }
  }

  lemma {:induction false} RolesOn(gnu: bool, u: Usage, o: Settings, args: seq<string>, r: Role, rest: seq<Role>, closed: bool,
      took: bool)
    requires args != [] && r == RoleAt(gnu, u, o, args, [], closed, took, 0)
    requires Roles(gnu, u, o, args[1..], rest, closed || Closes(gnu, r), Takes(u, o, args, [r], 0))
    ensures Roles(gnu, u, o, args, [r] + rest, closed, took)
  {
    hide Takes, Closes, Refuses, TakesNext, EatFirst, IsNonOption, IsTerminator;
    var roles, tail := [r] + rest, args[1..];
    forall i | 0 <= i < |args|
      ensures roles[i] == RoleAt(gnu, u, o, args, roles, closed, took, i)
    {
      if i > 0 {
        assert rest[i - 1] == RoleAt(gnu, u, o, tail, rest, closed || Closes(gnu, r), Takes(u, o, args, [r], 0), i - 1);
        ClosesOn(gnu, r, rest, i);
        TakesOn(u, o, args, r, rest, i);
      }
    }
  }

  lemma {:induction false} ClosesOn(gnu: bool, r: Role, rest: seq<Role>, i: nat)
    requires 0 < i <= |rest| + 1
    ensures (exists j :: 0 <= j < i && Closes(gnu, ([r] + rest)[j])) <==>
      Closes(gnu, r) || exists j :: 0 <= j < i - 1 && Closes(gnu, rest[j])
  {
    var roles := [r] + rest;
    assert roles[0] == r;
    forall j | 0 <= j < i - 1 ensures roles[j + 1] == rest[j] {}
    if j :| 0 <= j < i && Closes(gnu, roles[j]) {
      assert j > 0 ==> roles[j] == rest[j - 1];
    }
  }

  lemma {:induction false} TakesOn(u: Usage, o: Settings, args: seq<string>, r: Role, rest: seq<Role>, i: nat)
    requires 0 < i < |args| && i <= |rest| + 1
    ensures i == 1 ==> Takes(u, o, args, [r] + rest, i - 1) == Takes(u, o, args, [r], 0)
    ensures i > 1 ==> Takes(u, o, args, [r] + rest, i - 1) == Takes(u, o, args[1..], rest, i - 2)
  {
    hide Refuses, TakesNext, EatFirst, IsNonOption;
    assert i > 1 ==> args[1..][i - 2..] == args[i - 1..];
  }

  // The options in the elements that are options, one after the other.
  function SeenIn(u: Usage, o: Settings, args: seq<string>, roles: seq<Role>): seq<Seen>
    requires |roles| == |args|
  {
    if args == [] then []
    else
      var first := if roles[0].Opt? && !IsNonOption(args[0]) && EatFirst(u, o, args).Eaten? then EatFirst(u, o, args).seen else [];
      first + SeenIn(u, o, args[1..], roles[1..])
  }

  // An option at i is illegal.
  ghost predicate FatalAt(u: Usage, o: Settings, args: seq<string>, role: Role, i: nat)
    requires i < |args|
  {
    role.Opt? && !IsNonOption(args[i]) && Refuses(u, o, args[i], Following(args[i..]))
  }

  ghost predicate SomeFatal(u: Usage, o: Settings, args: seq<string>, roles: seq<Role>)
    requires |roles| == |args|
  {
    exists i :: 0 <= i < |args| && FatalAt(u, o, args, roles[i], i)
  }

  // The scan finds these roles: it is aborted by a fatal option; else it flags what is not Other.
  ghost predicate Finds(r: Scanned, u: Usage, o: Settings, args: seq<string>, roles: seq<Role>)
    requires |roles| == |args|
  {
    && (r.Aborted? <==> SomeFatal(u, o, args, roles))
    && (r.Scanned? ==>
          && |r.flags| == |args| && (forall i :: 0 <= i < |args| ==> (r.flags[i] <==> !roles[i].Other?))
          && r.seen == SeenIn(u, o, args, roles))
  }

  function SeenFirst(u: Usage, o: Settings, args: seq<string>, role: Role): seq<Seen>
    requires args != []
  {
    if role.Opt? && !IsNonOption(args[0]) && EatFirst(u, o, args).Eaten? then EatFirst(u, o, args).seen else []
  }

  lemma {:induction false} FatalOn(u: Usage, o: Settings, args: seq<string>, role: Role, rest: seq<Role>)
    requires args != [] && |rest| == |args| - 1
    ensures SomeFatal(u, o, args, [role] + rest) <==> FatalAt(u, o, args, role, 0) || SomeFatal(u, o, args[1..], rest)
  {
    hide FatalAt;
    var roles, tail := [role] + rest, args[1..];
    forall i | 0 <= i < |tail|
      ensures rest[i] == roles[i + 1] && FatalAt(u, o, tail, rest[i], i) == FatalAt(u, o, args, roles[i + 1], i + 1)
    {
      FatalBehind(u, o, args, rest[i], i);
    }
    if i :| 0 <= i < |args| && FatalAt(u, o, args, roles[i], i) {
      if i > 0 {
        assert rest[i - 1] == roles[i - 1 + 1] && FatalAt(u, o, tail, rest[i - 1], i - 1);
      }
    }
    assert roles[0] == role;
    if i :| 0 <= i < |tail| && FatalAt(u, o, tail, rest[i], i) {
      assert FatalAt(u, o, args, roles[i + 1], i + 1);
    }
  }

  lemma {:induction false} FatalBehind(u: Usage, o: Settings, args: seq<string>, role: Role, i: nat)
    requires i + 1 < |args|
    ensures FatalAt(u, o, args[1..], role, i) == FatalAt(u, o, args, role, i + 1)
  {
    hide Refuses, IsNonOption;
    assert args[1..][i..] == args[i + 1..];
  }

  // The first element's options, in the terms of the scan.
  lemma {:induction false} FirstIs(u: Usage, o: Settings, args: seq<string>, rest: seq<Role>)
    requires args != [] && !IsNonOption(args[0])
    ensures FatalAt(u, o, args, Opt, 0) == EatFirst(u, o, args).Fatal?
    ensures EatFirst(u, o, args).Eaten? ==> Takes(u, o, args, [Opt] + rest, 0) == EatFirst(u, o, args).took
  {
    hide Refuses, TakesNext, EatFirst, IsNonOption;
    assert args[0..] == args;
    EatFirstIs(u, o, args);
  }

  lemma {:induction false} FindsOn(r: Scanned, u: Usage, o: Settings, args: seq<string>, role: Role, rest: seq<Role>)
    requires args != [] && |rest| == |args| - 1 && Finds(r, u, o, args[1..], rest)
    requires role.Opt? ==> !IsNonOption(args[0]) && EatFirst(u, o, args).Eaten?
    ensures Finds(After([!role.Other?], SeenFirst(u, o, args, role), r), u, o, args, [role] + rest)
  {
    hide Refuses, TakesNext, EatFirst, IsNonOption, SomeFatal;
    var roles := [role] + rest;
    FatalOn(u, o, args, role, rest);
    if role.Opt? {
      FirstIs(u, o, args, rest);
    }
    assert roles[1..] == rest && roles[0] == role;
    if r.Scanned? {
      var flags := [!role.Other?] + r.flags;
      forall i | 0 <= i < |args| ensures flags[i] <==> !roles[i].Other? {
        assert i > 0 ==> flags[i] == r.flags[i - 1] && roles[i] == rest[i - 1];
      }
    }
  }

  lemma {:induction false} RolesExist(gnu: bool, u: Usage, o: Settings, args: seq<string>, closed: bool, took: bool)
      returns (roles: seq<Role>)
    ensures Roles(gnu, u, o, args, roles, closed, took)
  {
    hide Refuses, TakesNext, EatFirst, IsNonOption, IsTerminator;
    if args == [] {
      roles := [];
    } else {
      var r := RoleAt(gnu, u, o, args, [], closed, took, 0);
      var rest := RolesExist(gnu, u, o, args[1..], closed || Closes(gnu, r), Takes(u, o, args, [r], 0));
      RolesOn(gnu, u, o, args, r, rest, closed, took);
      roles := [r] + rest;
    }
  }

  // Behind an element that closes.
  lemma {:induction false} ClosedRoles(gnu: bool, u: Usage, o: Settings, args: seq<string>, took: bool)
      returns (roles: seq<Role>)
    ensures |roles| == |args|
    ensures Roles(gnu, u, o, args, roles, true, took) && Finds(Scanned(All(false, |args|), []), u, o, args, roles)
  {
    hide Refuses, TakesNext, EatFirst, IsNonOption, IsTerminator;
    roles := seq(|args|, i => Other);
    NothingSeen(u, o, args, roles);
  }

  lemma {:induction false} NothingSeen(u: Usage, o: Settings, args: seq<string>, roles: seq<Role>)
    requires |roles| == |args| && forall i :: 0 <= i < |roles| ==> roles[i].Other?
    ensures SeenIn(u, o, args, roles) == []
  {
    hide Refuses, TakesNext, EatFirst, IsNonOption;
    if args != [] {
      NothingSeen(u, o, args[1..], roles[1..]);
    }
  }

  lemma {:induction false} Extended(gnu: bool, u: Usage, o: Settings, args: seq<string>, rest: seq<Role>, r: Scanned)
    requires args != [] && |rest| == |args| - 1 && Finds(r, u, o, args[1..], rest)
    requires var role := RoleAt(gnu, u, o, args, [], false, false, 0);
      && Roles(gnu, u, o, args[1..], rest, Closes(gnu, role), Takes(u, o, args, [role], 0))
      && (role.Opt? ==> EatFirst(u, o, args).Eaten?)
    ensures var role := RoleAt(gnu, u, o, args, [], false, false, 0);
      && Roles(gnu, u, o, args, [role] + rest, false, false)
      && Finds(After([!role.Other?], SeenFirst(u, o, args, role), r), u, o, args, [role] + rest)
  {
    var role := RoleAt(gnu, u, o, args, [], false, false, 0);
    RolesOn(gnu, u, o, args, role, rest, false, false);
    FindsOn(r, u, o, args, role, rest);
    hide Refuses, TakesNext, EatFirst, Roles, Finds, SeenFirst;
  }

  lemma {:induction false} NoOption(gnu: bool, u: Usage, o: Settings, args: seq<string>, rest: seq<Role>, tail: Scanned)
    requires args != [] && (IsNonOption(args[0]) || IsTerminator(args[0]))
    requires |rest| == |args| - 1 && Finds(tail, u, o, args[1..], rest)
    requires tail == if IsNonOption(args[0]) && gnu then Scan(gnu, u, o, args[1..]) else Scanned(All(false, |args| - 1), [])
    requires Roles(gnu, u, o, args[1..], rest, !IsNonOption(args[0]) || !gnu, false)
    ensures var roles := [if IsNonOption(args[0]) then Other else Terminator] + rest;
      Roles(gnu, u, o, args, roles, false, false) && Finds(Scan(gnu, u, o, args), u, o, args, roles)
  {
    hide Refuses, TakesNext, EatFirst, Roles, Finds;
    Extended(gnu, u, o, args, rest, tail);
    assert [false] + All(false, |args| - 1) == All(false, |args|);
    var none: seq<Seen> := [];
    assert none + none == none;
  }

  lemma {:induction false} FatalFirst(gnu: bool, u: Usage, o: Settings, args: seq<string>) returns (roles: seq<Role>)
    requires args != [] && !IsNonOption(args[0]) && !IsTerminator(args[0]) && EatFirst(u, o, args).Fatal?
    ensures Roles(gnu, u, o, args, roles, false, false) && Finds(Scan(gnu, u, o, args), u, o, args, roles)
  {
    hide Refuses, TakesNext, EatFirst, Roles, IsNonOption, IsTerminator;
    var took := Takes(u, o, args, [Opt], 0);
    var rest := RolesExist(gnu, u, o, args[1..], false, took);
    RolesLength(gnu, u, o, args[1..], rest, took);
    RolesOn(gnu, u, o, args, Opt, rest, false, false);
    FatalOn(u, o, args, Opt, rest);
    FirstIs(u, o, args, []);
    roles := [Opt] + rest;
  }

  lemma {:induction false} RolesLength(gnu: bool, u: Usage, o: Settings, args: seq<string>, roles: seq<Role>, took: bool)
    requires Roles(gnu, u, o, args, roles, false, took)
    ensures |roles| == |args|
  {
  }

  // An option without an argument of its own, or with one.
  lemma {:induction false} OptionFirst(gnu: bool, u: Usage, o: Settings, args: seq<string>, rest: seq<Role>, took: bool)
    requires args != [] && !IsNonOption(args[0]) && !IsTerminator(args[0])
    requires EatFirst(u, o, args).Eaten? && EatFirst(u, o, args).took == took && (took ==> |args| > 1)
    requires var tail := args[if took then 2 else 1..];
      && |rest| == |tail| && Roles(gnu, u, o, tail, rest, false, false) && Finds(Scan(gnu, u, o, tail), u, o, tail, rest)
    ensures var roles := (if took then [Opt, Argument] else [Opt]) + rest;
      Roles(gnu, u, o, args, roles, false, false) && Finds(Scan(gnu, u, o, args), u, o, args, roles)
  {
    hide Refuses, TakesNext, EatFirst, Roles, Finds;
    var tail, seen := args[1..], EatFirst(u, o, args).seen;
    FirstIs(u, o, args, []);
    assert [Opt] + [] == [Opt];
    if took {
      assert tail[1..] == args[2..];
      var r := Scan(gnu, u, o, args[2..]);
      RolesOn(gnu, u, o, tail, Argument, rest, false, true);
      FindsOn(r, u, o, tail, Argument, rest);
      Extended(gnu, u, o, args, [Argument] + rest, After([true], [], r));
      AfterAfter([true], seen, [true], [], r);
      assert seen + [] == seen && [true] + [true] == [true, true];
      assert [Opt] + ([Argument] + rest) == [Opt, Argument] + rest;
    } else {
      Extended(gnu, u, o, args, rest, Scan(gnu, u, o, tail));
    }
  }

  lemma {:induction false} NoRoles(gnu: bool, u: Usage, o: Settings)
    ensures Roles(gnu, u, o, [], [], false, false) && Finds(Scan(gnu, u, o, []), u, o, [], [])
  {
  }

  // The scan computes the roles: exactly what is not Other is flagged, the options are those in the
  // elements that are options, and it is aborted exactly by a fatal one among these.
  lemma {:induction false} ScanFindsRoles(gnu: bool, u: Usage, o: Settings, args: seq<string>) returns (roles: seq<Role>)
    ensures |roles| == |args|
    ensures Roles(gnu, u, o, args, roles, false, false) && Finds(Scan(gnu, u, o, args), u, o, args, roles)
    decreases |args|
  {
    hide Refuses, TakesNext, EatFirst, Roles, Finds, IsNonOption, IsTerminator, Scan;
    if args == [] {
      roles := [];
      NoRoles(gnu, u, o);
    } else if IsNonOption(args[0]) || IsTerminator(args[0]) {
      var rest;
      if IsNonOption(args[0]) && gnu {
        rest := ScanFindsRoles(gnu, u, o, args[1..]);
        NoOption(gnu, u, o, args, rest, Scan(gnu, u, o, args[1..]));
      } else {
        rest := ClosedRoles(gnu, u, o, args[1..], false);
        NoOption(gnu, u, o, args, rest, Scanned(All(false, |args| - 1), []));
      }
      roles := [if IsNonOption(args[0]) then Other else Terminator] + rest;
    } else if EatFirst(u, o, args).Fatal? {
      roles := FatalFirst(gnu, u, o, args);
      RolesLength(gnu, u, o, args, roles, false);
    } else {
      var took := EatFirst(u, o, args).took;
      var rest := ScanFindsRoles(gnu, u, o, args[if took then 2 else 1..]);
      OptionFirst(gnu, u, o, args, rest, took);
      roles := (if took then [Opt, Argument] else [Opt]) + rest;
    }
  }

  // The option at i - 1 has element i as its argument: an option in it, with nothing but options without
  // arguments before it, was offered that text and check_arg took it.
  ghost predicate Gives(u: Usage, o: Settings, param: string, text: string, s: Seen)
    requires |param| >= 2
  {
    Reached(u, o, param, Some(text), s) && Answers(u, s, ArgOk) && s.arg == Detached(text)
  }

  ghost predicate HasArgument(u: Usage, o: Settings, param: string, text: string) {
    |param| >= 2 && exists s: Seen :: Gives(u, o, param, text, s)
  }

  lemma {:induction false} TakesItsText(u: Usage, o: Settings, param: string, text: string)
    requires |param| >= 2
    ensures TakesNext(u, o, param, Some(text)) <==> HasArgument(u, o, param, text)
  {
    hide Reached, Answers;
    forall s: Seen | Reached(u, o, param, Some(text), s) && s.arg.Detached? ensures s.arg == Detached(text) {
      OfferedText(u, o, param, text, s);
    }
    if s: Seen :| Reached(u, o, param, Some(text), s) && Answers(u, s, ArgOk) && s.arg.Detached? {
      assert Gives(u, o, param, text, s);
    }
  }

  // Which elements are arguments.
  lemma {:induction false} ArgumentIff(gnu: bool, u: Usage, o: Settings, args: seq<string>, roles: seq<Role>, i: nat)
    requires Roles(gnu, u, o, args, roles, false, false) && i < |args|
    ensures roles[i].Argument? <==>
      i > 0 && roles[i - 1].Opt? && HasArgument(u, o, args[i - 1], args[i])
  {
    hide HasArgument, TakesNext;
    assert roles[i] == RoleAt(gnu, u, o, args, roles, false, false, i);
    if i > 0 {
      assert roles[i - 1] == RoleAt(gnu, u, o, args, roles, false, false, i - 1);
      if j :| 0 <= j < i && Closes(gnu, roles[j]) {
        assert j == i - 1 || roles[i - 1].Other?;
      }
      if roles[i - 1].Opt? {
        assert Following(args[i - 1..]) == Some(args[i]);
        TakesItsText(u, o, args[i - 1], args[i]);
      }
    }
  }

  lemma {:induction false} OfferedText(u: Usage, o: Settings, param: string, text: string, s: Seen)
    requires |param| >= 2 && Reached(u, o, param, Some(text), s) && s.arg.Detached?
    ensures s.arg == Detached(text)
  {
    hide IsGroup, Designates, DummyMatch;
    LongArgText(LongName(param), text);
  }

  lemma {:induction false} LongArgText(name: string, text: string)
    ensures LongArg(name, Some(text)).Detached? ==> LongArg(name, Some(text)) == Detached(text)
  {
    if name != "" && name[0] != '=' {
      LongArgText(name[1..], text);
    }
  }

  // What is stored of the options: those reached in the elements that are options, each with its argument
  // if that was accepted, and without one otherwise.
  lemma {:induction false} SeenAre(u: Usage, o: Settings, args: seq<string>, roles: seq<Role>, x: Seen)
    requires |roles| == |args| && !SomeFatal(u, o, args, roles)
    ensures x in SeenIn(u, o, args, roles) <==> exists i :: 0 <= i < |args| && KeptAt(u, o, args, roles[i], i, x)
  {
    hide KeptAt, FatalAt, EatFirst, IsNonOption;
    if args != [] {
      var tail, rest := args[1..], roles[1..];
      assert roles == [roles[0]] + rest;
      FatalOn(u, o, args, roles[0], rest);
      SeenAre(u, o, tail, rest, x);
      KeptFirst(u, o, args, roles[0], x);
      forall i | 0 <= i < |tail| ensures KeptAt(u, o, tail, rest[i], i, x) == KeptAt(u, o, args, roles[i + 1], i + 1, x) {
        KeptBehind(u, o, args, rest[i], i, x);
      }
      if i :| 0 <= i < |args| && KeptAt(u, o, args, roles[i], i, x) {
        if i > 0 {
          assert KeptAt(u, o, tail, rest[i - 1], i - 1, x) == KeptAt(u, o, args, roles[i - 1 + 1], i - 1 + 1, x);
        }
      }
      if i :| 0 <= i < |tail| && KeptAt(u, o, tail, rest[i], i, x) {
        assert KeptAt(u, o, args, roles[i + 1], i + 1, x);
      }
    }
  }

  ghost predicate KeptAt(u: Usage, o: Settings, args: seq<string>, role: Role, i: nat, x: Seen)
    requires i < |args|
  {
    role.Opt? && !IsNonOption(args[i]) && Kept(u, o, args[i], Following(args[i..]), x)
  }

  lemma {:induction false} KeptBehind(u: Usage, o: Settings, args: seq<string>, role: Role, i: nat, x: Seen)
    requires i + 1 < |args|
    ensures KeptAt(u, o, args[1..], role, i, x) == KeptAt(u, o, args, role, i + 1, x)
  {
    hide Kept, IsNonOption;
    assert args[1..][i..] == args[i + 1..];
  }

  lemma {:induction false} KeptFirst(u: Usage, o: Settings, args: seq<string>, role: Role, x: Seen)
    requires args != [] && !FatalAt(u, o, args, role, 0)
    ensures x in SeenFirst(u, o, args, role) <==> KeptAt(u, o, args, role, 0, x)
  {
    hide Kept, Refuses, IsNonOption, EatFirst;
    assert args[0..] == args;
    if role.Opt? && !IsNonOption(args[0]) {
      EatFirstIs(u, o, args);
    }
  }

  // In GNU mode, without roles: what is not flagged is a non-option or behind the terminator, and what
  // is flagged is an option, the terminator, or what an option right before it takes.
  lemma {:induction false} FlagsMean(u: Usage, o: Settings, args: seq<string>, i: nat)
    requires Scan(true, u, o, args).Scanned? && i < |args|
    ensures var f := Scan(true, u, o, args).flags;
      && (!f[i] ==> args[i] == "" || args[i] == "-" || args[i][0] != '-' || exists j :: 0 <= j < i && f[j] && args[j] == "--")
      && (f[i] ==>
            || (|args[i]| > 1 && args[i][0] == '-')
            || (i > 0 && f[i - 1] && args[i - 1] != "" && args[i - 1][0] == '-' && HasArgument(u, o, args[i - 1], args[i])))
  {
    hide HasArgument, EatFirst, Scan, SeenIn, SomeFatal;
    var roles := ScanFindsRoles(true, u, o, args);
    assert roles[i] == RoleAt(true, u, o, args, roles, false, false, i);
    ArgumentIff(true, u, o, args, roles, i);
    if i > 0 {
      assert roles[i - 1] == RoleAt(true, u, o, args, roles, false, false, i - 1);
    }
    if j :| 0 <= j < i && Closes(true, roles[j]) {
      assert roles[j] == RoleAt(true, u, o, args, roles, false, false, j);
    }
  }

  // The elements with the given flag, in their order.
  ghost function Pick<T>(args: seq<T>, flags: seq<bool>, b: bool): seq<T>
    requires |args| == |flags|
  {
    if args == [] then []
    else
      var n := |args| - 1;
      Pick(args[..n], flags[..n], b) + if flags[n] == b then [args[n]] else []
  }

  lemma {:induction false} PickCat<T>(x: seq<T>, y: seq<T>, f: seq<bool>, g: seq<bool>, b: bool)
    requires |x| == |f| && |y| == |g|
    ensures Pick(x + y, f + g, b) == Pick(x, f, b) + Pick(y, g, b)
  {
    if y == [] {
      assert x + y == x && f + g == f;
    } else {
      var n := |y| - 1;
      PickCat(x, y[..n], f, g[..n], b);
      assert (x + y)[..|x| + n] == x + y[..n] && (f + g)[..|x| + n] == f + g[..n];
    }
  }

  // Each element with the flag is picked, and how many are before it.
  lemma {:induction false} PickPlaces<T>(x: seq<T>, f: seq<bool>, b: bool, i: nat)
    requires |x| == |f| && i < |x| && f[i] == b
    ensures var k := |Pick(x[..i], f[..i], b)|; k < |Pick(x, f, b)| && Pick(x, f, b)[k] == x[i]
  {
    assert x == x[..i] + ([x[i]] + x[i + 1..]) && f == f[..i] + ([f[i]] + f[i + 1..]);
    PickCat(x[..i], [x[i]] + x[i + 1..], f[..i], [f[i]] + f[i + 1..], b);
    PickCat([x[i]], x[i + 1..], [f[i]], f[i + 1..], b);
    PickAll([x[i]], [f[i]], b);
  }

  lemma {:induction false} PickAll<T>(x: seq<T>, f: seq<bool>, b: bool)
    requires |x| == |f| && forall i :: 0 <= i < |f| ==> f[i] == b
    ensures Pick(x, f, b) == x && Pick(x, f, !b) == []
  {
    if x != [] {
      PickAll(x[..|x| - 1], f[..|x| - 1], b);
      assert x == x[..|x| - 1] + [x[|x| - 1]];
    }
  }

  lemma {:induction false} PickCounts<T>(x: seq<T>, f: seq<bool>)
    requires |x| == |f|
    ensures |Pick(x, f, true)| + |Pick(x, f, false)| == |x|
  {
    if x != [] {
      PickCounts(x[..|x| - 1], f[..|x| - 1]);
    }
  }

  // Options and their arguments first, the others behind them, both as they were.
  ghost function Sorted(args: seq<Option<string>>, flags: seq<bool>): seq<Option<string>>
    requires |args| == |flags|
  {
    Pick(args, flags, true) + Pick(args, flags, false)
  }

  ghost function Texts(args: seq<Option<string>>): seq<string>
    requires forall i :: 0 <= i < |args| ==> args[i].Some?
  {
    seq(|args|, i requires 0 <= i < |args| => args[i].value)
  }

  // StoreOptionAction, without the lists options of one index are chained into.
  class StoreAction {
    const bufmax: int
    var buffer: seq<Seen>

    constructor (bufmax: int)
      ensures this.bufmax == bufmax && buffer == []
    {
      this.bufmax := bufmax;
      buffer := [];
    }

    ghost predicate Overflows()
      reads this
    {
      (bufmax < 0 || |buffer| < bufmax) && |buffer| == MAX_OPTIONS
    }

    // An option that is discarded because of a full buffer is not fatal.
    method Perform(option: Seen) returns (ok: bool)
      modifies this
      ensures ok <==> !old(Overflows())
      ensures buffer == if ok then Stored(old(buffer), bufmax, [option]) else old(buffer)
    {
      if bufmax < 0 || |buffer| < bufmax {
        if |buffer| == MAX_OPTIONS {
          return false;
        }
        buffer := buffer + [option];
      }
      return true;
    }
  }

  const MAX_OPTIONS := 0x7fffffff

  // The buffer after some more options.
  ghost function Stored(buffer: seq<Seen>, bufmax: int, seen: seq<Seen>): seq<Seen>
    decreases |seen|
  {
    if seen == [] then buffer
    else Stored(if bufmax < 0 || |buffer| < bufmax then buffer + [seen[0]] else buffer, bufmax, seen[1..])
  }

  lemma {:induction false} StoredCat(buffer: seq<Seen>, bufmax: int, x: seq<Seen>, y: seq<Seen>)
    ensures Stored(buffer, bufmax, x + y) == Stored(Stored(buffer, bufmax, x), bufmax, y)
    decreases |x|
  {
    if x == [] {
      assert x + y == y;
    } else {
      assert (x + y)[1..] == x[1..] + y;
      StoredCat(if bufmax < 0 || |buffer| < bufmax then buffer + [x[0]] else buffer, bufmax, x[1..], y);
    }
  }

  // Options are stored in their order as long as there is room.
  lemma {:induction false} StoredIs(buffer: seq<Seen>, bufmax: int, seen: seq<Seen>)
    ensures Stored(buffer, bufmax, seen) ==
      if bufmax < 0 || |buffer| + |seen| <= bufmax then buffer + seen
      else if |buffer| < bufmax then buffer + seen[..bufmax - |buffer|]
      else buffer
    decreases |seen|
  {
    if seen == [] {
      assert buffer + seen == buffer;
    } else if bufmax < 0 || |buffer| < bufmax {
      StoredIs(buffer + [seen[0]], bufmax, seen[1..]);
      assert seen == [seen[0]] + seen[1..];
      var n := bufmax - |buffer|;
      assert 0 < n < |seen| ==> seen[..n] == [seen[0]] + seen[1..][..n - 1];
    } else {
      StoredIs(buffer, bufmax, seen[1..]);
    }
  }

  // Parser::shift: args[at] moves in front of the count elements before it.
  method Shift(args: array<Option<string>>, at: nat, count: nat)
    requires count <= at < args.Length
    modifies args
    ensures args[..] == old(args[..at - count] + [args[at]] + args[at - count..at] + args[at + 1..])
  {
    var i := at;
    while i > at - count
      invariant at - count <= i <= at
      invariant forall k :: 0 <= k < i || at < k < args.Length ==> args[k] == old(args[k])
      invariant args[i] == old(args[at])
      invariant forall k :: i < k <= at ==> args[k] == old(args[k - 1])
    {
      args[i], args[i - 1] := args[i - 1], args[i];
      i := i - 1;
    }
    ghost var was := old(args[..]);
    var to := was[..at - count] + [was[at]] + was[at - count..at] + was[at + 1..];
    assert |to| == args.Length;
    forall k | 0 <= k < args.Length
      ensures args[k] == to[k]
    {
    }
  }

  // The elements before position |done| are sorted, the others are as given; nonops of them are no
  // options.
  ghost predicate Arranged(now: seq<Option<string>>, given: seq<Option<string>>, done: seq<bool>, nonops: int) {
    var k := |done|;
    && k <= |now| == |given|
    && now[..k] == Sorted(given[..k], done) && now[k..] == given[k..]
    && nonops == |Pick(given[..k], done, false)|
  }

  lemma {:induction false} ArrangedSkip(now: seq<Option<string>>, given: seq<Option<string>>, done: seq<bool>, nonops: int)
    requires Arranged(now, given, done, nonops) && |done| < |now|
    ensures Arranged(now, given, done + [false], nonops + 1)
  {
    var k, x, f := |done|, given[..|done| + 1], done + [false];
    assert x[..k] == given[..k] && f[..k] == done && x[k] == given[k] == now[k..][0];
    assert now[..k + 1] == now[..k] + [now[k]];
    assert now[k + 1..] == now[k..][1..] && given[k + 1..] == given[k..][1..];
    hide Pick;
    PickLast(x, f, true);
    PickLast(x, f, false);
  }

  lemma {:induction false} PickLast<T>(x: seq<T>, f: seq<bool>, b: bool)
    requires |x| == |f| > 0
    ensures var n := |x| - 1; Pick(x, f, b) == Pick(x[..n], f[..n], b) + if f[n] == b then [x[n]] else []
  {
  }

  lemma {:induction false} ArrangedMove(was: seq<Option<string>>, now: seq<Option<string>>, given: seq<Option<string>>,
                                        done: seq<bool>, nonops: int)
    requires Arranged(was, given, done, nonops) && |done| < |was|
    requires 0 <= nonops <= |done|
    requires var k := |done|; now == was[..k - nonops] + [was[k]] + was[k - nonops..k] + was[k + 1..]
    ensures Arranged(now, given, done + [true], nonops)
  {
    hide Pick;
    var k, x, f := |done|, given[..|done| + 1], done + [true];
    assert x[..k] == given[..k] && f[..k] == done && x[k] == given[k] == was[k..][0];
    PickLast(x, f, true);
    PickLast(x, f, false);
    PickCounts(given[..k], done);
    Rotated(was, now, k, nonops);
    HalvesOf(was[..k], Pick(given[..k], done, true), Pick(given[..k], done, false));
    assert was[k + 1..] == was[k..][1..] && given[k + 1..] == given[k..][1..];
  }

  lemma {:induction false} HalvesOf<T>(s: seq<T>, a: seq<T>, b: seq<T>)
    requires s == a + b
    ensures s[..|s| - |b|] == a && s[|s| - |b|..] == b
  {
  }

  lemma {:induction false} Rotated<T>(was: seq<T>, now: seq<T>, k: nat, n: nat)
    requires n <= k < |was| && now == was[..k - n] + [was[k]] + was[k - n..k] + was[k + 1..]
    ensures now[..k + 1] == was[..k][..k - n] + [was[k]] + was[..k][k - n..] && now[k + 1..] == was[k + 1..]
  {
    assert was[..k][..k - n] == was[..k - n] && was[..k][k - n..] == was[k - n..k];
  }

  lemma {:induction false} ArrangedCount(now: seq<Option<string>>, given: seq<Option<string>>, done: seq<bool>, nonops: int)
    requires Arranged(now, given, done, nonops)
    ensures 0 <= nonops <= |done|
  {
    PickCounts(given[..|done|], done);
    hide Pick;
  }

  // The arguments are the first n elements, as numargs says, or up to the null pointer when it is
  // negative; at of them are behind us.
  ghost predicate Counted(given: seq<Option<string>>, n: nat, at: nat, numargs: int) {
    && at <= n <= |given| && (forall i :: 0 <= i < n ==> given[i].Some?)
    && (if numargs >= 0 then at + numargs == n else n < |given| && given[n].None?)
  }

  // An option moves in front of the elements that are none.
  method Move(args: array<Option<string>>, at: nat, nonops: nat, ghost given: seq<Option<string>>, ghost done: seq<bool>)
    requires Arranged(args[..], given, done, nonops) && at == |done| < args.Length
    modifies args
    ensures Arranged(args[..], given, done + [true], nonops)
  {
    hide Arranged;
    ArrangedCount(args[..], given, done, nonops);
    ghost var was := args[..];
    Shift(args, at, nonops);
    ArrangedMove(was, args[..], given, done, nonops);
  }

  // How far a group has come: what it does to the whole element, or what was seen of it before pos.
  ghost predicate Underway(u: Usage, o: Settings, param: string, next: Option<string>, whole: Eaten,
                           seen: seq<Seen>, pos: nat, short: bool, tryLong: bool)
    requires |param| >= 2
  {
    pos < |param| && whole == Behind(seen, Eat(u, o, param, pos, short, tryLong, next))
  }

  lemma {:induction false} UnderwayNext(u: Usage, o: Settings, param: string, next: Option<string>, whole: Eaten,
                                        seen: seq<Seen>, pos: nat, short: bool, tryLong: bool)
    requires |param| >= 2 && Underway(u, o, param, next, whole, seen, pos, short, tryLong)
    ensures var f := Look(u, o, param, pos, short, tryLong, next);
      && (f.End? ==> whole == Eaten(seen, false))
      && (f.Found? ==>
        var s := Settle(u, f.desc, param, f.pos, f.arg);
        && (s.Illegal? ==> whole == Fatal)
        && (s.Settled? && (s.stop || !f.short) ==> whole == Eaten(seen + s.seen, s.took))
        && (s.Settled? && !s.stop && f.short ==> Underway(u, o, param, next, whole, seen + s.seen, f.pos, true, false)))
  {
    hide Look, Settle;
    var f := Look(u, o, param, pos, short, tryLong, next);
    if f.Found? {
      var s := Settle(u, f.desc, param, f.pos, f.arg);
      if s.Settled? && !s.stop && f.short {
        var e := Eat(u, o, param, f.pos, true, false, next);
        if e.Eaten? {
          assert seen + (s.seen + e.seen) == seen + s.seen + e.seen;
        }
      }
    } else {
      assert seen + [] == seen;
    }
  }

  // One descriptor found in a group: check_arg, then the action.
  method Accept(u: Usage, desc: nat, param: string, pos: nat, arg: Arg, action: StoreAction)
    returns (ok: bool, took: bool, stop: bool)
    requires desc <= |u|
    modifies action
    ensures var s := Settle(u, desc, param, pos, arg);
      && (ok ==> s.Settled? && took == s.took && stop == s.stop && action.buffer == Stored(old(action.buffer), action.bufmax, s.seen))
      && (!ok ==> s.Illegal? || action.Overflows())
  {
    took, stop := false, false;
    if desc < |u| {
      var option := Seen(desc, param, pos, arg);
      match u[desc].checkArg(option) {
        case ArgIllegal => return false, false, false;
        case ArgOk =>
          took := arg.Detached?;
          stop := true;
        case _ =>
          option := option.(arg := NoArg);
      }
      ok := action.Perform(option);
    } else {
      ok := true;
    }
  }

  ghost predicate Parsed(now: seq<Option<string>>, given: seq<Option<string>>, done: seq<bool>, nonops: nat, n: nat,
      at: nat, numargs: int) {
    at == |done| && Arranged(now, given, done, nonops) && Counted(given, n, at, numargs)
  }

  // One element with options: the loop over a group of short options, once through for a long option.
  method ParseElement(u: Usage, o: Settings, args: array<Option<string>>, at0: nat, nonops: nat, numargs0: int,
      action: StoreAction,
                      ghost given: seq<Option<string>>, ghost done: seq<bool>, ghost n: nat)
    returns (ok: bool, at: nat, numargs: int)
    requires Parsed(args[..], given, done, nonops, n, at0, numargs0) && at0 < n
    requires !IsNonOption(given[at0].value)
    modifies args, action
    ensures at0 + 1 <= n <= |given| && forall i :: 0 <= i < n ==> given[i].Some?
    ensures var e := EatFirst(u, o, Texts(given[at0..n]));
      && (ok ==> e.Eaten? && action.buffer == Stored(old(action.buffer), action.bufmax, e.seen)
                 && Parsed(args[..], given, done + (if e.took then [true, true] else [true]), nonops, n, at, numargs))
      && (!ok ==> e.Fatal? || action.Overflows())
  {
    hide Underway, Arranged, Counted, Eat, Look, Settle, Behind, Stored;
    at, numargs := at0, numargs0;
    HeadIs(args[..], given, done, nonops, n, numargs);
    var param := args[at].value;
    var short := param[1] != '-';
    var tryLong := o.singleMinusLongopt;
    var haveMore := numargs > 1 || numargs < 0;
    var next := if haveMore then args[at + 1] else None;
    ghost var whole := EatFirst(u, o, Texts(given[at0..n]));
    ghost var seen: seq<Seen>, gone: seq<bool> := [], done;
    var took := false;
    var pos, running := 0, true;
    UnderwayStarts(u, o, param, next, pos, short, tryLong);
    StoredNone(action.buffer, action.bufmax);
    while running
      invariant !running ==> whole == Eaten(seen, took)
      invariant running ==> !took && pos < |param| && Underway(u, o, param, next, whole, seen, pos, short, tryLong)
      invariant action.buffer == Stored(old(action.buffer), action.bufmax, seen)
      invariant gone == (if took then done + [true] else done) && at < n
      invariant Parsed(args[..], given, gone, nonops, n, at, numargs)
      decreases running, |param| - pos
    {
      UnderwayNext(u, o, param, next, whole, seen, pos, short, tryLong);
      var found := LookUp(u, o, param, pos, short, tryLong, next);
      if found == End {
        running := false;
      } else {
        var stop;
        ghost var s := Settle(u, found.desc, param, found.pos, found.arg);
        ok, took, stop := Accept(u, found.desc, param, found.pos, found.arg, action);
        if !ok {
          return;
        }
        StoredCat(old(action.buffer), action.bufmax, seen, s.seen);
        seen := seen + s.seen;
        pos, short, tryLong := found.pos, true, false;
        running := !stop && found.short;
        if took {
          at, numargs := Pass(args, at, nonops, numargs, given, gone, n);
          gone := gone + [true];
        }
      }
    }
    at, numargs := Pass(args, at, nonops, numargs, given, gone, n);
    assert done + [true] + [true] == done + [true, true];
    ok := true;
  }

  lemma {:induction false} UnderwayStarts(u: Usage, o: Settings, param: string, next: Option<string>, pos: nat,
      short: bool, tryLong: bool)
    requires |param| >= 2 && pos < |param|
    ensures Underway(u, o, param, next, Eat(u, o, param, pos, short, tryLong, next), [], pos, short, tryLong)
  {
    var e := Eat(u, o, param, pos, short, tryLong, next);
    assert e.Eaten? ==> [] + e.seen == e.seen;
  }

  lemma {:induction false} StoredNone(buffer: seq<Seen>, bufmax: int)
    ensures Stored(buffer, bufmax, []) == buffer
  {
  }

  // Over an option, and past it.
  method Pass(args: array<Option<string>>, at0: nat, nonops: nat, numargs0: int, ghost given: seq<Option<string>>,
      ghost done: seq<bool>, ghost n: nat)
    returns (at: nat, numargs: int)
    requires Parsed(args[..], given, done, nonops, n, at0, numargs0) && at0 < n
    modifies args
    ensures Parsed(args[..], given, done + [true], nonops, n, at, numargs)
  {
    hide Arranged;
    assert at0 < args.Length by {
      HeadIs(args[..], given, done, nonops, n, numargs0);
    }
    Move(args, at0, nonops, given, done);
    at := at0 + 1;
    numargs := if numargs0 > 0 then numargs0 - 1 else numargs0;
  }

  lemma {:induction false} HeadIs(now: seq<Option<string>>, given: seq<Option<string>>, done: seq<bool>, nonops: nat,
      n: nat, numargs: int)
    requires Counted(given, n, |done|, numargs) && |done| < n && Arranged(now, given, done, nonops)
    ensures |now| == |given| && n <= |given| && forall i :: 0 <= i < n ==> given[i].Some?
    ensures var at := |done|;
      && now[at] == given[at] && now[at].Some? && Texts(given[at..n])[0] == now[at].value
      && ((numargs > 1 || numargs < 0) ==> at + 1 < |now|)
      && Following(Texts(given[at..n])) == if numargs > 1 || numargs < 0 then now[at + 1] else None
  {
    hide Pick;
    var at := |done|;
    assert now[at] == now[at..][0] && given[at] == given[at..][0];
    assert at + 1 < |now| ==> now[at + 1] == now[at..][1] && given[at + 1] == given[at..][1];
  }

  // Parser::workhorse.  What is left of the arguments is scanned like the whole.
  ghost predicate Scanning(gnu: bool, u: Usage, o: Settings, args: seq<string>, done: seq<bool>, seen: seq<Seen>)
  {
    |done| <= |args| && Scan(gnu, u, o, args) == After(done, seen, Scan(gnu, u, o, args[|done|..]))
  }

  lemma {:induction false} ScanningStarts(gnu: bool, u: Usage, o: Settings, args: seq<string>)
    ensures Scanning(gnu, u, o, args, [], [])
  {
    assert args[0..] == args;
    var r := Scan(gnu, u, o, args);
    if r.Scanned? {
      assert [] + r.flags == r.flags && [] + r.seen == r.seen;
    }
  }

  lemma {:induction false} ScanningOn(gnu: bool, u: Usage, o: Settings, args: seq<string>, done: seq<bool>, seen: seq<Seen>)
    requires Scanning(gnu, u, o, args, done, seen) && |done| < |args|
    ensures var rest := args[|done|..];
      && rest != []
      && (IsNonOption(rest[0]) && gnu ==> Scanning(gnu, u, o, args, done + [false], seen))
      && (IsNonOption(rest[0]) && !gnu ==> Scan(gnu, u, o, args) == Scanned(done + All(false, |rest|), seen))
      && (IsTerminator(rest[0]) ==> Scan(gnu, u, o, args) == Scanned(done + [true] + All(false, |rest| - 1), seen))
      && (!IsNonOption(rest[0]) && !IsTerminator(rest[0]) ==>
        var e := EatFirst(u, o, rest);
        if e.Fatal? then Scan(gnu, u, o, args) == Aborted
        else Scanning(gnu, u, o, args, done + (if e.took then [true, true] else [true]), seen + e.seen))
  {
    hide Refuses, TakesNext, EatFirst;
    var rest := args[|done|..];
    assert rest[1..] == args[|done| + 1..];
    assert |rest| > 1 ==> rest[2..] == args[|done| + 2..];
    if IsNonOption(rest[0]) {
      AfterAfter(done, seen, [false], [], Scan(gnu, u, o, rest[1..]));
      assert seen + [] == seen;
    } else if IsTerminator(rest[0]) {
      assert done + ([true] + All(false, |rest| - 1)) == done + [true] + All(false, |rest| - 1);
      assert seen + [] == seen;
    } else {
      var e := EatFirst(u, o, rest);
      if e.Eaten? {
        if e.took {
          AfterAfter(done, seen, [true, true], e.seen, Scan(gnu, u, o, rest[2..]));
        } else {
          AfterAfter(done, seen, [true], e.seen, Scan(gnu, u, o, rest[1..]));
        }
      }
    }
  }

  lemma {:induction false} ScanningEnds(gnu: bool, u: Usage, o: Settings, args: seq<string>, done: seq<bool>,
      seen: seq<Seen>)
    requires Scanning(gnu, u, o, args, done, seen) && |done| == |args|
    ensures Scan(gnu, u, o, args) == Scanned(done, seen)
  {
    assert args[|done|..] == [];
    assert done + [] == done && seen + [] == seen;
  }

  // What finished() is told: count elements from first on.
  ghost predicate Handed(now: seq<Option<string>>, given: seq<Option<string>>, n: nat, flags: seq<bool>, count: int,
      first: int)
    requires n <= |given| && |flags| == n
  {
    && |now| == |given| && now[n..] == given[n..] && now[..n] == Sorted(given[..n], flags)
    && 0 <= first && count >= 0 && first + count == n && now[first..n] == Pick(given[..n], flags, false)
  }

  lemma {:induction false} HandedAtEnd(now: seq<Option<string>>, given: seq<Option<string>>, n: nat, done: seq<bool>,
      nonops: nat)
    requires exists at, numargs :: Parsed(now, given, done, nonops, n, at, numargs)
    ensures |done| <= n <= |given| && nonops <= |done|
    ensures Handed(now, given, n, done + All(false, n - |done|), n - |done| + nonops, |done| - nonops)
  {
    hide Pick;
    var k := |done|;
    var x, y, g := given[..k], given[k..n], All(false, n - k);
    ArrangedCount(now, given, done, nonops);
    PickCounts(x, done);
    PickCat(x, y, done, g, true);
    PickCat(x, y, done, g, false);
    PickAll(y, g, false);
    assert x + y == given[..n];
    assert y == given[k..][..n - k];
    assert now[..n] == now[..k] + now[k..][..n - k];
    assert now[n..] == now[k..][n - k..] && given[n..] == given[k..][n - k..];
    var a, b := Pick(x, done, true), Pick(x, done, false);
    assert now[..n] == a + (b + y);
    assert Pick(given[..n], done + g, true) == a + [] == a;
    assert Pick(given[..n], done + g, false) == b + y;
    assert now[k - nonops..n] == now[..n][k - nonops..] == b + y;
  }

  // The element at the front: it is an argument unless all arguments are behind us.
  lemma {:induction false} Front(now: seq<Option<string>>, given: seq<Option<string>>, done: seq<bool>, nonops: nat,
      n: nat, at: nat, numargs: int)
    requires Parsed(now, given, done, nonops, n, at, numargs)
    ensures |now| == |given| && n <= |given| && (forall i :: 0 <= i < n ==> given[i].Some?) && at == |done| <= n
    ensures numargs != 0 ==> at < |now|
    ensures if numargs != 0 && now[at].Some? then at < n else at == n
    ensures at < n ==> now[at].Some? && now[at].value == Texts(given[..n])[at] && Texts(given[..n])[at..] == Texts(given[at..n])
  {
    hide Pick, Sorted;
    assert at < |now| ==> now[at] == now[at..][0] && given[at] == given[at..][0];
  }

  lemma {:induction false} ParsedStarts(given: seq<Option<string>>, n: nat, numargs: int)
    requires Counted(given, n, 0, numargs)
    ensures Parsed(given, given, [], 0, n, 0, numargs) && n <= |given| && forall i :: 0 <= i < n ==> given[i].Some?
  {
    assert given[..0] == [];
    assert given[0..] == given;
  }

  lemma {:induction false} ParsedSkip(now: seq<Option<string>>, given: seq<Option<string>>, done: seq<bool>,
      nonops: nat, n: nat, at: nat, numargs: int)
    requires Parsed(now, given, done, nonops, n, at, numargs) && at < n
    ensures Parsed(now, given, done + [false], nonops + 1, n, at + 1, if numargs > 0 then numargs - 1 else numargs)
  {
    ArrangedFits(now, given, done, nonops);
    ArrangedSkip(now, given, done, nonops);
    hide Arranged;
  }

  lemma {:induction false} ArrangedFits(now: seq<Option<string>>, given: seq<Option<string>>, done: seq<bool>, nonops: int)
    requires Arranged(now, given, done, nonops)
    ensures |done| <= |now| == |given|
  {
  }

  // The arguments up to the null pointer, for a negative numargs.
  lemma {:induction false} Rest(now: seq<Option<string>>, given: seq<Option<string>>, done: seq<bool>, nonops: nat,
      n: nat, at: nat, numargs: int)
    requires Parsed(now, given, done, nonops, n, at, numargs)
    ensures numargs >= 0 ==> numargs == n - at
    ensures numargs < 0 ==> n < |now| && forall i :: at <= i <= n ==> (now[i].Some? <==> i < n)
  {
    hide Pick, Sorted;
    assert |now| == |given|;
    assert forall i :: at <= i < |now| ==> now[i] == now[at..][i - at] && given[i] == given[at..][i - at];
  }

  // Everything from here on is no option.
  ghost predicate Finishing(gnu: bool, u: Usage, o: Settings, args: seq<string>, done: seq<bool>, seen: seq<Seen>) {
    |done| <= |args| && Scan(gnu, u, o, args) == Scanned(done + All(false, |args| - |done|), seen)
  }

  lemma {:induction false} FinishingAtEnd(gnu: bool, u: Usage, o: Settings, args: seq<string>, done: seq<bool>,
      seen: seq<Seen>)
    requires Scanning(gnu, u, o, args, done, seen) && |done| == |args|
    ensures Finishing(gnu, u, o, args, done, seen)
  {
    ScanningEnds(gnu, u, o, args, done, seen);
    assert done + All(false, 0) == done;
  }

  lemma {:induction false} FinishingIs(gnu: bool, u: Usage, o: Settings, args: seq<string>, done: seq<bool>,
      seen: seq<Seen>)
    requires Finishing(gnu, u, o, args, done, seen)
    ensures |done| <= |args| && Scan(gnu, u, o, args) == Scanned(done + All(false, |args| - |done|), seen)
  {
  }

  lemma {:induction false} FinishingOn(gnu: bool, u: Usage, o: Settings, args: seq<string>, done: seq<bool>,
      seen: seq<Seen>)
    requires Scanning(gnu, u, o, args, done, seen) && |done| < |args|
    ensures var first := args[|done|];
      && (IsNonOption(first) && !gnu ==> Finishing(gnu, u, o, args, done, seen))
      && (IsTerminator(first) ==> Finishing(gnu, u, o, args, done + [true], seen))
  {
    ScanningOn(gnu, u, o, args, done, seen);
    hide Scan, Scanning;
    assert args[|done|..][0] == args[|done|];
  }

  lemma {:induction false} ScanningNext(gnu: bool, u: Usage, o: Settings, args: seq<string>, done: seq<bool>,
      seen: seq<Seen>)
    requires Scanning(gnu, u, o, args, done, seen) && |done| < |args|
    ensures var first := args[|done|];
      && (IsNonOption(first) && gnu ==> Scanning(gnu, u, o, args, done + [false], seen))
      && (!IsNonOption(first) && !IsTerminator(first) ==>
        var e := EatFirst(u, o, args[|done|..]);
        if e.Fatal? then Scan(gnu, u, o, args) == Aborted
        else Scanning(gnu, u, o, args, done + (if e.took then [true, true] else [true]), seen + e.seen))
  {
    ScanningOn(gnu, u, o, args, done, seen);
    hide Scan, Scanning, EatFirst;
    assert args[|done|..][0] == args[|done|];
  }

  method Workhorse(gnu: bool, u: Usage, o: Settings, args: array<Option<string>>, numargs0: int, action: StoreAction,
      ghost n: nat)
    returns (ok: bool, count: int, first: int)
    requires Counted(args[..], n, 0, numargs0)
    modifies args, action
    ensures forall i :: 0 <= i < n ==> n <= |old(args[..])| && old(args[..])[i].Some?
    ensures var r := Scan(gnu, u, o, Texts(old(args[..n])));
      && (ok ==> r.Scanned? && Handed(args[..], old(args[..]), n, r.flags, count, first)
                 && action.buffer == Stored(old(action.buffer), action.bufmax, r.seen))
      && (!ok ==> r.Aborted? || action.Overflows())
  {
    hide Parsed, Counted, Arranged, Scanning, Finishing, Scan, Stored, EatFirst, Handed, Pick, Sorted, All;
    ghost var given := args[..];
    ParsedStarts(given, n, numargs0);
    ghost var texts := Texts(given[..n]);
    ghost var done: seq<bool>, seen: seq<Seen> := [], [];
    var at, nonops, numargs := 0, 0, numargs0;
    count, first := 0, 0;
    ghost var finished := false;
    ScanningStarts(gnu, u, o, texts);
    StoredNone(action.buffer, action.bufmax);
    Front(args[..], given, done, nonops, n, at, numargs);
    while numargs != 0 && args[at].Some?
      invariant Parsed(args[..], given, done, nonops, n, at, numargs)
      invariant numargs != 0 ==> at < args.Length
      invariant !finished && Scanning(gnu, u, o, texts, done, seen)
      invariant action.buffer == Stored(old(action.buffer), action.bufmax, seen)
      decreases n - at
    {
      var param := args[at].value;
      Front(args[..], given, done, nonops, n, at, numargs);
      ScanningNext(gnu, u, o, texts, done, seen);
      FinishingOn(gnu, u, o, texts, done, seen);
      if IsNonOption(param) {
        if gnu {
          ParsedSkip(args[..], given, done, nonops, n, at, numargs);
          numargs := if numargs > 0 then numargs - 1 else numargs;
          nonops := nonops + 1;
          at := at + 1;
          done := done + [false];
          Front(args[..], given, done, nonops, n, at, numargs);
          continue;
        } else {
          finished := true;
          break;
        }
      }
      if IsTerminator(param) {
        finished := true;
        at, numargs := Pass(args, at, nonops, numargs, given, done, n);
        done := done + [true];
        break;
      }
      ghost var e := EatFirst(u, o, texts[at..]);
      ok, at, numargs := ParseElement(u, o, args, at, nonops, numargs, action, given, done, n);
      if !ok {
        return;
      }
      StoredCat(old(action.buffer), action.bufmax, seen, e.seen);
      done := done + if e.took then [true, true] else [true];
      seen := seen + e.seen;
      Front(args[..], given, done, nonops, n, at, numargs);
    }
    Front(args[..], given, done, nonops, n, at, numargs);
    if !finished {
      FinishingAtEnd(gnu, u, o, texts, done, seen);
    }
    Rest(args[..], given, done, nonops, n, at, numargs);
    if numargs > 0 && args[at].None? {
      numargs := 0;
    }
    if numargs < 0 {
      numargs := 0;
      while args[at + numargs].Some?
        invariant 0 <= numargs <= n - at
        decreases n - at - numargs
      {
        numargs := numargs + 1;
      }
    }
    HandedAtEnd(args[..], given, n, done, nonops);
    FinishingIs(gnu, u, o, texts, done, seen);
    return true, numargs + nonops, at - nonops;
  }
}
