/** Whole runs of the patcher: any sequence of statements, in any order. */
module PolicyRuns {
  import opened Wrappers
  import opened PolicyModel
  import opened Ioctl
  import opened PolicyTheorems
  import PolicyDb

  datatype Command =
    | RuleCmd(a: Action, ss: seq<Name>, ts: seq<Name>, c: Name, qs: seq<Name>)
    | XRuleCmd(kind: XKind, ss: seq<Name>, ts: seq<Name>, cs: seq<Name>, range: Option<Range>)
    | CreateCmd(d: string)
    | AttrAddCmd(x: string, attr: string)
    | StateCmd(n: Name, on: bool)
    | TransitionCmd(s: string, t: string, cls: string, def: string)

  ghost function Step(p: Policy, cmd: Command): Policy
    requires InRange(p)
  {
    match cmd
    case RuleCmd(a, ss, ts, c, qs) => Meaning(p, a, ss, ts, c, qs)
    case XRuleCmd(kind, ss, ts, cs, range) =>
      XMeaning(p, kind, ss, ts, cs, range.GetOr(FULL_RANGE).low, range.GetOr(FULL_RANGE).high)
    case CreateCmd(d) => Create(p, d)
    case AttrAddCmd(x, a) => AttrAdd(p, x, a)
    case StateCmd(n, on) => SetState(p, n, on)
    case TransitionCmd(s, t, c, d) => AddTransition(p, s, t, c, d)
  }

  lemma StepInRange(p: Policy, cmd: Command)
    requires InRange(p)
    ensures InRange(Step(p, cmd))
  {
    match cmd
    case CreateCmd(d) => CreateInRange(p, d);
    case AttrAddCmd(x, a) => AttrAddInRange(p, x, a);
    case _ =>
  }

  ghost function Run(p: Policy, cmds: seq<Command>): (r: Policy)
    requires InRange(p)
    ensures InRange(r)
    decreases |cmds|
  {
    if cmds == [] then p
    else
      StepInRange(p, cmds[0]);
      Run(Step(p, cmds[0]), cmds[1..])
  }

  lemma {:induction false} RunAppend(p: Policy, a: seq<Command>, b: seq<Command>)
    requires InRange(p)
    ensures Run(p, a + b) == Run(Run(p, a), b)
    decreases |a|
  {
    if a == [] {
      assert a + b == b;
    } else {
      StepInRange(p, a[0]);
      TailOfSum(a, b);
      RunAppend(Step(p, a[0]), a[1..], b);
    }
  }

  lemma RunOne(p: Policy, cmd: Command)
    requires InRange(p)
    ensures InRange(Step(p, cmd)) && Run(p, [cmd]) == Step(p, cmd)
    ensures cmd.RuleCmd? ==> Run(p, [cmd]) == Meaning(p, cmd.a, cmd.ss, cmd.ts, cmd.c, cmd.qs)
    ensures cmd.XRuleCmd? ==>
      var r := cmd.range.GetOr(FULL_RANGE);
      Run(p, [cmd]) == XMeaning(p, cmd.kind, cmd.ss, cmd.ts, cmd.cs, r.low, r.high)
    ensures cmd.CreateCmd? ==> Run(p, [cmd]) == Create(p, cmd.d)
    ensures cmd.AttrAddCmd? ==> Run(p, [cmd]) == AttrAdd(p, cmd.x, cmd.attr)
    ensures cmd.StateCmd? ==> Run(p, [cmd]) == SetState(p, cmd.n, cmd.on)
    ensures cmd.TransitionCmd? ==> Run(p, [cmd]) == AddTransition(p, cmd.s, cmd.t, cmd.cls, cmd.def)
  {
    StepInRange(p, cmd);
    assert [cmd][1..] == [];
  }

  lemma RunSnoc(p: Policy, cmds: seq<Command>, cmd: Command)
    requires InRange(p)
    ensures Run(p, cmds + [cmd]) == Step(Run(p, cmds), cmd)
  {
    RunAppend(p, cmds, [cmd]);
    RunOne(Run(p, cmds), cmd);
  }

  // ------------------------------------------------------------------ the maps stay transposed

  lemma SetAttrTransposed(p: Policy, a: string, v: nat)
    requires InRange(p) && Transposed(p) && OwnBits(p) && TypeOf(p, v)
    ensures InRange(SetAttr(p, a, v + 1)) && Transposed(SetAttr(p, a, v + 1)) && OwnBits(SetAttr(p, a, v + 1))
  {}

  lemma DeclareTransposed(p: Policy, d: string)
    requires InRange(p) && Transposed(p) && OwnBits(p) && d !in p.types
    ensures InRange(Declare(p, d)) && Transposed(Declare(p, d)) && OwnBits(Declare(p, d))
  {}

  lemma NamedValuesPersist(p: Policy, d: string, v: nat)
    requires d !in p.types && NamedValue(p.types, v)
    ensures NamedValue(Declare(p, d).types, v)
  {
    var n :| n in p.types && p.types[n].value == v;
    assert n in Declare(p, d).types && Declare(p, d).types[n].value == v;
  }

  lemma CreateValid(p: Policy, d: string)
    requires Valid(p)
    ensures InRange(Create(p, d)) && Valid(Create(p, d))
  {
    if d !in p.types {
      DeclareTransposed(p, d);
      SetAttrTransposed(Declare(p, d), "domain", p.nprim);
      var q := Create(p, d);
      forall k | k in q.te ensures NamedValue(q.types, k.source) && NamedValue(q.types, k.target) {
        NamedValuesPersist(p, d, k.source);
        NamedValuesPersist(p, d, k.target);
      }
      forall k | k in q.xte ensures NamedValue(q.types, k.source) && NamedValue(q.types, k.target) {
        NamedValuesPersist(p, d, k.source);
        NamedValuesPersist(p, d, k.target);
      }
      OthersNamed(p, d);
    }
  }

  lemma OthersNamed(p: Policy, d: string)
    requires RulesNamed(p) && d !in p.types
    ensures forall v :: v in p.permissive ==> NamedValue(Declare(p, d).types, v)
    ensures forall k :: k in p.transitions ==>
      && NamedValue(Declare(p, d).types, k.source) && NamedValue(Declare(p, d).types, k.target)
      && NamedValue(Declare(p, d).types, p.transitions[k])
  {
    forall v | v in p.permissive ensures NamedValue(Declare(p, d).types, v) { NamedValuesPersist(p, d, v); }
    forall k | k in p.transitions
      ensures NamedValue(Declare(p, d).types, k.source) && NamedValue(Declare(p, d).types, k.target)
      ensures NamedValue(Declare(p, d).types, p.transitions[k])
    {
      NamedValuesPersist(p, d, k.source);
      NamedValuesPersist(p, d, k.target);
      NamedValuesPersist(p, d, p.transitions[k]);
    }
  }

  lemma TypeValuesNamed(p: Policy, ns: seq<Name>, v: nat)
    requires v in TypeSet(p, ns)
    ensures NamedValue(p.types, v)
  {}

  lemma RuleValid(p: Policy, a: Action, ss: seq<Name>, ts: seq<Name>, c: Name, qs: seq<Name>)
    requires Valid(p)
    ensures Valid(Meaning(p, a, ss, ts, c, qs))
  {
    var q := Meaning(p, a, ss, ts, c, qs);
    forall k | k in q.te ensures NamedValue(q.types, k.source) && NamedValue(q.types, k.target) {
      if k !in p.te {
        TypeValuesNamed(p, ss, k.source);
        TypeValuesNamed(p, ts, k.target);
      }
    }
  }

  lemma XRuleValid(p: Policy, kind: XKind, ss: seq<Name>, ts: seq<Name>, cs: seq<Name>, low: Code, high: Code)
    requires Valid(p)
    ensures Valid(XMeaning(p, kind, ss, ts, cs, low, high))
  {
    var q := XMeaning(p, kind, ss, ts, cs, low, high);
    forall k | k in q.xte ensures NamedValue(q.types, k.source) && NamedValue(q.types, k.target) {
      if k !in p.xte {
        TypeValuesNamed(p, ss, k.source);
        TypeValuesNamed(p, ts, k.target);
      }
    }
  }

  lemma StateValid(p: Policy, n: Name, on: bool)
    requires Valid(p)
    ensures Valid(SetState(p, n, on))
  {
    forall v | v in TypeValues(p, n) ensures NamedValue(p.types, v) { TypeValuesNamed(p, [n], v); }
  }

  lemma TransitionValid(p: Policy, s: string, t: string, c: string, d: string)
    requires Valid(p)
    ensures Valid(AddTransition(p, s, t, c, d))
  {
    if TransitionResolves(p, s, t, c, d) {
      var q, k := AddTransition(p, s, t, c, d), TransKey(p.types[s].value, p.types[t].value, p.classes[c].value);
      assert q.transitions == p.transitions[k := p.types[d].value];
      assert NamedValue(p.types, p.types[s].value) && NamedValue(p.types, p.types[t].value);
      assert NamedValue(p.types, p.types[d].value);
    }
  }

  lemma AttrAddValid(p: Policy, x: string, a: string)
    requires Valid(p)
    ensures Valid(AttrAdd(p, x, a))
  {
    if x in p.types {
      var v := p.types[x].value;
      SetAttrTransposed(p, a, v - 1);
      assert Valid(SetAttr(p, a, v));
      AnyConstraints(SetAttr(p, a, v), JoinAll(p.constraints, AttrId(p, a), v));
    }
  }

  lemma StepValid(p: Policy, cmd: Command)
    requires Valid(p)
    ensures Valid(Step(p, cmd))
  {
    match cmd
    case RuleCmd(a, ss, ts, c, qs) => RuleValid(p, a, ss, ts, c, qs);
    case XRuleCmd(k, ss, ts, cs, r) => XRuleValid(p, k, ss, ts, cs, r.GetOr(FULL_RANGE).low, r.GetOr(FULL_RANGE).high);
    case CreateCmd(d) => CreateValid(p, d);
    case AttrAddCmd(x, a) => AttrAddValid(p, x, a);
    case StateCmd(n, on) => StateValid(p, n, on);
    case TransitionCmd(s, t, c, d) => TransitionValid(p, s, t, c, d);
  }

  /** Every run keeps the two bitmaps transposed, each type's own bit, all values in range and
      every rule about named types. */
  lemma {:induction false} RunValid(p: Policy, cmds: seq<Command>)
    requires Valid(p)
    ensures Valid(Run(p, cmds))
    decreases |cmds|
  {
    if cmds != [] {
      StepValid(p, cmds[0]);
      RunValid(Step(p, cmds[0]), cmds[1..]);
    }
  }

  // ------------------------------------------------------------------ names, values and roles

  lemma StepKeepsTypes(p: Policy, cmd: Command)
    requires InRange(p) && (cmd.CreateCmd? ==> cmd.d in p.types)
    ensures Step(p, cmd).types == p.types && Step(p, cmd).roles == p.roles
  {}

  lemma CreateDeclares(p: Policy, d: string)
    requires InRange(p) && d !in p.types
    ensures Create(p, d).types == p.types[d := TypeDatum(p.nprim + 1, false)]
    ensures Create(p, d).roles == EnrolAll(p.roles, p.nprim)
  {}

  lemma StepKeepsNames(p: Policy, cmd: Command, n: string)
    requires InRange(p)
    ensures n in p.types ==> n in Step(p, cmd).types && Step(p, cmd).types[n] == p.types[n]
    ensures UniqueValues(p) ==> UniqueValues(Step(p, cmd))
  {
    if cmd.CreateCmd? && cmd.d !in p.types {
      CreateDeclares(p, cmd.d);
    } else {
      StepKeepsTypes(p, cmd);
    }
  }

  /** Names keep their value, and values stay unique. */
  lemma {:induction false} RunKeepsNames(p: Policy, cmds: seq<Command>, n: string)
    requires InRange(p)
    ensures n in p.types ==> n in Run(p, cmds).types && Run(p, cmds).types[n] == p.types[n]
    ensures UniqueValues(p) ==> UniqueValues(Run(p, cmds))
    decreases |cmds|
  {
    if cmds != [] {
      StepInRange(p, cmds[0]);
      StepKeepsNames(p, cmds[0], n);
      RunKeepsNames(Step(p, cmds[0]), cmds[1..], n);
    }
  }

  /** The type with value `v` is in every role. */
  ghost predicate InEveryRole(roles: seq<Role>, v: nat) {
    1 <= v && forall k :: 0 <= k < |roles| ==> v - 1 in roles[k].types && v - 1 !in roles[k].negset
  }

  /** If there is a type of that name, it is in every role. */
  ghost predicate Enrolled(p: Policy, n: string) { n in p.types ==> InEveryRole(p.roles, p.types[n].value) }

  lemma EnrolsAll(roles: seq<Role>, i: nat, v: nat)
    ensures InEveryRole(EnrolAll(roles, i), i + 1)
    ensures InEveryRole(roles, v) ==> InEveryRole(EnrolAll(roles, i), v)
  {}

  lemma CreateEnrols(p: Policy, d: string, n: string)
    requires InRange(p) && Enrolled(p, n) && d !in p.types
    ensures Enrolled(Create(p, d), n)
  {
    CreateDeclares(p, d);
    EnrolsAll(p.roles, p.nprim, if n in p.types then p.types[n].value else 0);
  }

  lemma StepEnrols(p: Policy, cmd: Command, n: string)
    requires InRange(p) && Enrolled(p, n)
    ensures Enrolled(Step(p, cmd), n)
  {
    if cmd.CreateCmd? && cmd.d !in p.types {
      CreateEnrols(p, cmd.d, n);
    } else {
      StepKeepsTypes(p, cmd);
    }
  }

  /** Every type that a run creates ends up in every role. */
  lemma {:induction false} RunEnrols(p: Policy, cmds: seq<Command>, n: string)
    requires InRange(p) && Enrolled(p, n)
    ensures Enrolled(Run(p, cmds), n)
    decreases |cmds|
  {
    if cmds != [] {
      StepInRange(p, cmds[0]);
      StepEnrols(p, cmds[0], n);
      RunEnrols(Step(p, cmds[0]), cmds[1..], n);
    }
  }

  // ------------------------------------------------------------------ constraint closure

  lemma NamesGrowTransitive(p: Constraints, q: Constraints, r: Constraints)
    requires NamesGrow(p, q) && NamesGrow(q, r)
    ensures NamesGrow(p, r)
  {
    forall c, n, x | 0 <= c < |p| && 0 <= n < |p[c]| && 0 <= x < |p[c][n]| ensures ExprGrows(p[c][n][x], r[c][n][x]) {
      assert ExprGrows(p[c][n][x], q[c][n][x]) && ExprGrows(q[c][n][x], r[c][n][x]);
    }
  }

  lemma StepGrowsNames(p: Policy, cmd: Command)
    requires InRange(p)
    ensures InRange(Step(p, cmd)) && NamesGrow(p.constraints, Step(p, cmd).constraints)
  {
    StepInRange(p, cmd);
    if cmd.AttrAddCmd? { AttrAddGrowsNames(p, cmd.x, cmd.attr); }
  }

  /** No run ever removes a name from a constraint. */
  lemma {:induction false} RunGrowsNames(p: Policy, cmds: seq<Command>)
    requires InRange(p)
    ensures NamesGrow(p.constraints, Run(p, cmds).constraints)
    decreases |cmds|
  {
    if cmds != [] {
      StepGrowsNames(p, cmds[0]);
      RunGrowsNames(Step(p, cmds[0]), cmds[1..]);
      NamesGrowTransitive(p.constraints, Step(p, cmds[0]).constraints, Run(p, cmds).constraints);
    }
  }

  lemma StepKeepsDomain(p: Policy, cmd: Command, i: nat)
    requires InRange(p) && i < p.nprim
    ensures p.nprim <= Step(p, cmd).nprim && (IsBit(Step(p, cmd), "domain", i) <==> IsBit(p, "domain", i))
  {
    if cmd.CreateCmd? && cmd.d !in p.types {
      CreateDeclares(p, cmd.d);
    } else {
      StepKeepsTypes(p, cmd);
    }
  }

  /** The bits of some named types. */
  ghost function Bits(p: Policy, ns: set<string>): set<nat>
    requires InRange(p) && ns <= p.types.Keys
  {
    set n | n in ns :: p.types[n].value - 1
  }

  /** The types whose membership in `domain` the constraints may lack after one more command. */
  function Pending(p: Policy, cmd: Command, ns: set<string>): set<string> {
    match cmd
    case CreateCmd(d) => if d in p.types then ns else ns + {d}
    case AttrAddCmd(x, a) => if a == "domain" then ns - {x} else ns
    case _ => ns
  }

  lemma StepBits(p: Policy, cmd: Command, ns: set<string>)
    requires InRange(p) && ns <= p.types.Keys && (cmd.CreateCmd? ==> cmd.d in p.types)
    ensures InRange(Step(p, cmd)) && ns <= Step(p, cmd).types.Keys && Bits(Step(p, cmd), ns) == Bits(p, ns)
  {
    StepInRange(p, cmd);
    StepKeepsTypes(p, cmd);
  }

  lemma CreateBits(p: Policy, d: string, ns: set<string>)
    requires InRange(p) && ns <= p.types.Keys && d !in p.types
    ensures InRange(Create(p, d)) && ns + {d} <= Create(p, d).types.Keys
    ensures Bits(Create(p, d), ns + {d}) == Bits(p, ns) + {p.nprim}
  {
    CreateInRange(p, d);
    CreateDeclares(p, d);
  }

  lemma StepClosedExcept(p: Policy, cmd: Command, i: nat, ns: set<string>)
    requires InRange(p) && i < p.nprim && IsBit(p, "domain", i) && ns <= p.types.Keys && ClosedExcept(p, i, Bits(p, ns))
    ensures var q, left := Step(p, cmd), Pending(p, cmd, ns);
      InRange(q) && i < q.nprim && left <= q.types.Keys && ClosedExcept(q, i, Bits(q, left))
  {
    StepInRange(p, cmd);
    StepKeepsDomain(p, cmd, i);
    if cmd.CreateCmd? && cmd.d !in p.types {
      CreateBits(p, cmd.d, ns);
      CreateClosedExcept(p, cmd.d, i, Bits(p, ns));
    } else {
      StepBits(p, cmd, ns);
      if cmd.AttrAddCmd? && cmd.x in p.types {
        AttrAddClosedExcept(p, cmd.x, cmd.attr, i, ns);
      } else {
        assert Step(p, cmd).attrType == p.attrType && Step(p, cmd).constraints == p.constraints;
        assert cmd.AttrAddCmd? ==> ns - {cmd.x} == ns;
      }
    }
  }

  lemma AttrAddClosedExcept(p: Policy, x: string, a: string, i: nat, ns: set<string>)
    requires InRange(p) && i < p.nprim && x in p.types && IsBit(p, "domain", i)
    requires ns <= p.types.Keys && ClosedExcept(p, i, Bits(p, ns))
    ensures var q, left := AttrAdd(p, x, a), if a == "domain" then ns - {x} else ns;
      InRange(q) && left <= q.types.Keys && ClosedExcept(q, i, Bits(q, left))
  {
    var q, left := AttrAdd(p, x, a), if a == "domain" then ns - {x} else ns;
    AttrAddClosure(p, x, a, i, Bits(p, ns));
    assert q.types == p.types && Bits(q, left) == Bits(p, left);
    var missing := if IsBit(p, a, i) then Bits(p, ns) - {p.types[x].value - 1} else Bits(p, ns);
    assert missing <= Bits(q, left);
    MoreMissing(q, i, missing, Bits(q, left));
  }

  /** Every create of the run is followed by the attradd that repeats its membership in `domain`. */
  ghost predicate Repeated(cmds: seq<Command>) {
    forall k :: 0 <= k < |cmds| && cmds[k].CreateCmd? ==> AttrAddCmd(cmds[k].d, "domain") in cmds[k + 1..]
  }

  lemma {:induction false} RunClosesDomain(p: Policy, cmds: seq<Command>, i: nat, ns: set<string>)
    requires InRange(p) && i < p.nprim && IsBit(p, "domain", i) && ns <= p.types.Keys && ClosedExcept(p, i, Bits(p, ns))
    requires Repeated(cmds) && forall n :: n in ns ==> AttrAddCmd(n, "domain") in cmds
    ensures i < Run(p, cmds).nprim && ClosedFor(Run(p, cmds), i)
    decreases |cmds|
  {
    if cmds == [] {
      assert ns == {} && Bits(p, ns) == {};
      NothingMissing(p, i);
    } else {
      var cmd, tail := cmds[0], cmds[1..];
      StepInRange(p, cmd);
      StepKeepsDomain(p, cmd, i);
      StepClosedExcept(p, cmd, i, ns);
      TailRepeated(cmds);
      PendingRepeated(p, cmds, ns);
      RunClosesDomain(Step(p, cmd), tail, i, Pending(p, cmd, ns));
    }
  }

  lemma TailRepeated(cmds: seq<Command>)
    requires cmds != [] && Repeated(cmds)
    ensures Repeated(cmds[1..])
  {
    var tail := cmds[1..];
    forall k | 0 <= k < |tail| && tail[k].CreateCmd? ensures AttrAddCmd(tail[k].d, "domain") in tail[k + 1..] {
      assert cmds[k + 1] == tail[k];
      TailOfTail(cmds, k);
    }
  }

  lemma TailOfTail(cmds: seq<Command>, k: nat)
    requires k + 1 < |cmds|
    ensures cmds[k + 1 + 1..] == cmds[1..][k + 1..]
  {}

  lemma InTail(cmds: seq<Command>, cmd: Command)
    requires cmds != [] && cmd in cmds && cmd != cmds[0]
    ensures cmd in cmds[1..]
  {
    var k :| 0 <= k < |cmds| && cmds[k] == cmd;
    assert cmds[1..][k - 1] == cmd;
  }

  lemma PendingRepeated(p: Policy, cmds: seq<Command>, ns: set<string>)
    requires cmds != [] && Repeated(cmds) && forall n :: n in ns ==> AttrAddCmd(n, "domain") in cmds
    ensures forall n :: n in Pending(p, cmds[0], ns) ==> AttrAddCmd(n, "domain") in cmds[1..]
  {
    forall n | n in Pending(p, cmds[0], ns) ensures AttrAddCmd(n, "domain") in cmds[1..] {
      if n in ns {
        InTail(cmds, AttrAddCmd(n, "domain"));
      } else {
        assert cmds[0] == CreateCmd(n) && cmds[0 + 1..] == cmds[1..];
      }
    }
  }

  lemma CreateKeepsRow(p: Policy, d: string, i: nat)
    requires InRange(p) && i < p.nprim && !IsBit(p, "domain", i)
    ensures InRange(Create(p, d)) && i < |Create(p, d).attrType|
    ensures Create(p, d).attrType[i] == p.attrType[i] && Create(p, d).constraints == p.constraints
  {
    CreateInRange(p, d);
  }

  lemma StepKeepsClosure(p: Policy, cmd: Command, i: nat)
    requires InRange(p) && i < p.nprim && ClosedFor(p, i) && !IsBit(p, "domain", i)
    ensures InRange(Step(p, cmd)) && i < Step(p, cmd).nprim && ClosedFor(Step(p, cmd), i)
  {
    StepInRange(p, cmd);
    StepKeepsDomain(p, cmd, i);
    if cmd.AttrAddCmd? {
      AttrAddKeepsClosure(p, cmd.x, cmd.attr, i);
    } else if cmd.CreateCmd? {
      CreateKeepsRow(p, cmd.d, i);
    } else {
      assert Step(p, cmd).attrType == p.attrType && Step(p, cmd).constraints == p.constraints;
    }
  }

  lemma {:induction false} RunKeepsOthersClosed(p: Policy, cmds: seq<Command>, i: nat)
    requires InRange(p) && i < p.nprim && ClosedFor(p, i) && !IsBit(p, "domain", i)
    ensures i < Run(p, cmds).nprim && ClosedFor(Run(p, cmds), i)
    decreases |cmds|
  {
    if cmds != [] {
      StepInRange(p, cmds[0]);
      StepKeepsDomain(p, cmds[0], i);
      StepKeepsClosure(p, cmds[0], i);
      RunKeepsOthersClosed(Step(p, cmds[0]), cmds[1..], i);
    }
  }

  /** Every run keeps the closure of every attribute, and of `domain` provided that each create is followed,
      anywhere later in the run, by the attradd that repeats it. */
  lemma RunKeepsClosure(p: Policy, cmds: seq<Command>, i: nat)
    requires InRange(p) && i < p.nprim && ClosedFor(p, i)
    requires IsBit(p, "domain", i) ==> Repeated(cmds)
    ensures i < Run(p, cmds).nprim && ClosedFor(Run(p, cmds), i)
  {
    if IsBit(p, "domain", i) {
      NothingMissing(p, i);
      assert Bits(p, {}) == {};
      RunClosesDomain(p, cmds, i, {});
    } else {
      RunKeepsOthersClosed(p, cmds, i);
    }
  }

  // ------------------------------------------------------------------ lists of attradd

  /** One of the commands makes type bit `i` a member of attribute bit `j`. */
  ghost predicate Joins(p: Policy, cmd: Command, i: nat, j: nat) {
    && cmd.AttrAddCmd? && cmd.x in p.types && cmd.attr in p.types && p.types[cmd.attr].isAttribute
    && p.types[cmd.x].value == i + 1 && p.types[cmd.attr].value == j + 1
  }

  ghost predicate SomeJoins(p: Policy, cmds: seq<Command>, i: nat, j: nat) {
    exists cmd :: cmd in cmds && Joins(p, cmd, i, j)
  }

  lemma SomeJoinsHead(p: Policy, cmds: seq<Command>, i: nat, j: nat)
    requires cmds != []
    ensures SomeJoins(p, cmds, i, j) <==> Joins(p, cmds[0], i, j) || SomeJoins(p, cmds[1..], i, j)
  {
    if SomeJoins(p, cmds, i, j) {
      var cmd :| cmd in cmds && Joins(p, cmd, i, j);
      if cmd != cmds[0] { InTail(cmds, cmd); }
    }
  }

  /** A run of attradd gives every type exactly the attributes it is listed with on top of its own, and every
      attribute exactly those members. */
  lemma {:induction false} AttrRunRows(p: Policy, cmds: seq<Command>, i: nat, j: nat)
    requires InRange(p) && i < p.nprim && j < p.nprim && forall cmd :: cmd in cmds ==> cmd.AttrAddCmd?
    ensures var q := Run(p, cmds);
      && q == p.(typeAttr := q.typeAttr, attrType := q.attrType, constraints := q.constraints)
      && (j in q.typeAttr[i] <==> j in p.typeAttr[i] || SomeJoins(p, cmds, i, j))
      && (i in q.attrType[j] <==> i in p.attrType[j] || SomeJoins(p, cmds, i, j))
    decreases |cmds|
  {
    if cmds != [] {
      var cmd := cmds[0];
      assert cmd in cmds;
      StepJoins(p, cmd, i, j);
      AttrRunRows(Step(p, cmd), cmds[1..], i, j);
      SomeJoinsHead(p, cmds, i, j);
      SameJoins(p, Step(p, cmd), cmds[1..], i, j);
    }
  }

  lemma StepJoins(p: Policy, cmd: Command, i: nat, j: nat)
    requires InRange(p) && i < p.nprim && j < p.nprim && cmd.AttrAddCmd?
    ensures var q := Step(p, cmd);
      && InRange(q) && q == p.(typeAttr := q.typeAttr, attrType := q.attrType, constraints := q.constraints)
      && (j in q.typeAttr[i] <==> j in p.typeAttr[i] || Joins(p, cmd, i, j))
      && (i in q.attrType[j] <==> i in p.attrType[j] || Joins(p, cmd, i, j))
  {
    StepInRange(p, cmd);
    AttrAddRows(p, cmd.x, cmd.attr, i);
    AttrAddRows(p, cmd.x, cmd.attr, j);
  }

  lemma SameJoins(p: Policy, q: Policy, cmds: seq<Command>, i: nat, j: nat)
    requires p.types == q.types
    ensures SomeJoins(p, cmds, i, j) <==> SomeJoins(q, cmds, i, j)
  {
    forall cmd ensures Joins(p, cmd, i, j) <==> Joins(q, cmd, i, j) {}
  }

  /** The command adds type bit `v` to expression `e`. */
  ghost predicate AddsName(p: Policy, cmd: Command, e: ConstraintExpr, v: nat) {
    && cmd.AttrAddCmd? && cmd.x in p.types && p.types[cmd.x].value == v + 1 && e.Names?
    && var id := if cmd.attr in p.types && p.types[cmd.attr].isAttribute then p.types[cmd.attr].value else 1;
       id >= 1 && id - 1 in e.typeNames
  }

  ghost predicate SomeAddsName(p: Policy, cmds: seq<Command>, e: ConstraintExpr, v: nat) {
    exists cmd :: cmd in cmds && AddsName(p, cmd, e, v)
  }

  lemma SomeAddsHead(p: Policy, cmds: seq<Command>, e: ConstraintExpr, v: nat)
    requires cmds != []
    ensures SomeAddsName(p, cmds, e, v) <==> AddsName(p, cmds[0], e, v) || SomeAddsName(p, cmds[1..], e, v)
  {
    if SomeAddsName(p, cmds, e, v) {
      var cmd :| cmd in cmds && AddsName(p, cmd, e, v);
      if cmd != cmds[0] { InTail(cmds, cmd); }
    }
  }

  lemma SameAdds(p: Policy, q: Policy, cmds: seq<Command>, e: ConstraintExpr, f: ConstraintExpr, v: nat)
    requires p.types == q.types && e.Names? == f.Names? && (e.Names? ==> e.typeNames == f.typeNames)
    ensures SomeAddsName(p, cmds, e, v) <==> SomeAddsName(q, cmds, f, v)
  {
    forall cmd ensures AddsName(p, cmd, e, v) <==> AddsName(q, cmd, f, v) {}
  }

  /** As far as `v` goes, `f` is `e` with or without it added. */
  ghost predicate AddedIf(adds: bool, e: ConstraintExpr, f: ConstraintExpr, v: nat) {
    if e.Names? then f.Names? && f.typeNames == e.typeNames && (v in f.names <==> v in e.names || adds) else f == e
  }

  /** `f` is `e` with exactly the names that the commands add. */
  ghost predicate Added(p: Policy, cmds: seq<Command>, e: ConstraintExpr, f: ConstraintExpr, v: nat) {
    AddedIf(SomeAddsName(p, cmds, e, v), e, f, v)
  }

  /** A run of attradd gives every constraint exactly the types that join an attribute it names. */
  lemma {:induction false} AttrRunExpr(p: Policy, cmds: seq<Command>, c: int, n: int, e: int, v: nat)
    requires InRange(p) && ExprAt(p.constraints, c, n, e) && forall cmd :: cmd in cmds ==> cmd.AttrAddCmd?
    ensures ExprAt(Run(p, cmds).constraints, c, n, e)
    ensures Added(p, cmds, p.constraints[c][n][e], Run(p, cmds).constraints[c][n][e], v)
    decreases |cmds|
  {
    if cmds != [] {
      var cmd, was := cmds[0], p.constraints[c][n][e];
      assert cmd in cmds;
      StepInRange(p, cmd);
      AttrAddExpr(p, cmd.x, cmd.attr, c, n, e);
      var q := Step(p, cmd);
      AttrRunExpr(q, cmds[1..], c, n, e, v);
      AddedStep(p, q, cmds, was, q.constraints[c][n][e], Run(q, cmds[1..]).constraints[c][n][e], v);
    }
  }

  lemma AddedStep(p: Policy, q: Policy, cmds: seq<Command>, e: ConstraintExpr, f: ConstraintExpr, g: ConstraintExpr,
                  v: nat)
    requires cmds != [] && cmds[0].AttrAddCmd? && p.types == q.types && Added(q, cmds[1..], f, g, v)
    requires AddedIf(AddsName(p, cmds[0], e, v), e, f, v)
    ensures Added(p, cmds, e, g, v)
  {
    SomeAddsHead(p, cmds, e, v);
    SameAdds(p, q, cmds[1..], e, f, v);
  }

  // ------------------------------------------------------------------ ioctl ranges

  ghost predicate Touches(p: Policy, cmd: Command, k: XKey) {
    cmd.XRuleCmd? && XTouches(p, cmd.kind, cmd.ss, cmd.ts, cmd.cs, k)
  }

  lemma StepExtends(p: Policy, cmd: Command, k: XKey)
    requires InRange(p) && k in p.xte
    ensures InRange(Step(p, cmd)) && k in Step(p, cmd).xte && Extends(p.xte[k], Step(p, cmd).xte[k])
  {
    StepInRange(p, cmd);
    if cmd.XRuleCmd? {
      var r := cmd.range.GetOr(FULL_RANGE);
      AddExtends(p.xte[k], r.low, r.high);
    }
  }

  /** No run changes the kind or driver of an entry, or withdraws a code from it. */
  lemma {:induction false} RunExtends(p: Policy, cmds: seq<Command>, k: XKey)
    requires InRange(p) && k in p.xte
    ensures k in Run(p, cmds).xte && Extends(p.xte[k], Run(p, cmds).xte[k])
    decreases |cmds|
  {
    if cmds != [] {
      StepExtends(p, cmds[0], k);
      RunExtends(Step(p, cmds[0]), cmds[1..], k);
    }
  }

  /** Whatever runs before and after it, a range added to a key is covered at the end of the run if
      and only if the entry that the statement found, or made, could express it. */
  lemma RunCovers(p: Policy, before: seq<Command>, cmd: Command, after: seq<Command>, k: XKey)
    requires InRange(p) && Touches(Run(p, before), cmd, k)
    ensures var r, q := cmd.range.GetOr(FULL_RANGE), Run(p, before + ([cmd] + after));
      k in q.xte && (Covers(q.xte[k], r.low, r.high) <==>
        Expressible(Entry(Run(p, before).xte, k, r.low, r.high), r.low, r.high))
  {
    var r, found := cmd.range.GetOr(FULL_RANGE), Run(p, before);
    StepInRange(found, cmd);
    var made := Step(found, cmd);
    TouchedKeys(found, cmd.kind, cmd.ss, cmd.ts, cmd.cs, k);
    assert made.xte[k] == AddRange(Entry(found.xte, k, r.low, r.high), r.low, r.high, false);
    RunExtends(made, after, k);
    RunAppend(p, before, [cmd] + after);
    assert ([cmd] + after)[1..] == after;
    CoveredForGood(Entry(found.xte, k, r.low, r.high), Run(made, after).xte[k], r.low, r.high);
  }

  // ------------------------------------------------------------------ the statement loop

  method ExecuteOne(db: PolicyDb.Db, cmd: Command)
    requires InRange(db.View())
    modifies db
    ensures db.View() == Step(old(db.View()), cmd)
  {
    match cmd {
      case RuleCmd(a, ss, ts, c, qs) => db.ApplyStatement(a, ss, ts, c, qs);
      case XRuleCmd(kind, ss, ts, cs, range) => db.ApplyXStatement(kind, ss, ts, cs, range);
      case CreateCmd(d) => var _ := db.CreateDomain(d);
      case AttrAddCmd(x, a) => var _ := db.AddTypeAttribute(x, a);
      case StateCmd(n, on) => var _ := db.SetDomainState(n, on);
      case TransitionCmd(s, t, c, d) => var _ := db.AddTypeTransition(s, t, c, d);
    }
  }

  /** Executes the statements one after the other on the database in place. */
  method Execute(db: PolicyDb.Db, cmds: seq<Command>)
    requires InRange(db.View())
    modifies db
    ensures InRange(db.View()) && db.View() == Run(old(db.View()), cmds)
  {
    ghost var p := db.View();
    assert cmds[..0] == [];
    for i := 0 to |cmds|
      invariant db.View() == Run(p, cmds[..i])
    {
      RunSnoc(p, cmds[..i], cmds[i]);
      assert cmds[..i + 1] == cmds[..i] + [cmds[i]];
      ExecuteOne(db, cmds[i]);
    }
    assert cmds[..|cmds|] == cmds;
  }
}
