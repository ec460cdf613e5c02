/** jni/magiskpolicy/sepolicy.c: the operations that patch the policy in place. */
module PolicyDb {
  import opened Wrappers
  import opened PolicyModel
  import opened Ioctl

  class Db {
    var types: map<string, TypeDatum>
    var nprim: nat
    var classes: map<string, ClassDatum>
    var te: Table
    var xte: XTable
    var permissive: set<nat>
    var transitions: map<TransKey, nat>
    var typeAttr: seq<set<nat>>
    var attrType: seq<set<nat>>
    var roles: seq<Role>
    var constraints: Constraints

    ghost function View(): Policy
      reads this
    {
      Policy(types, nprim, classes, te, xte, permissive, transitions, typeAttr, attrType, roles, constraints)
    }

    constructor (p: Policy)
      ensures View() == p
    {
      types, nprim, classes, te, xte := p.types, p.nprim, p.classes, p.te, p.xte;
      permissive, transitions := p.permissive, p.transitions;
      typeAttr, attrType, roles, constraints := p.typeAttr, p.attrType, p.roles, p.constraints;
    }

    // ---------------------------------------------------------------- access-vector rules

    /** __add_rule: one key, one permission, or every permission when `perm` is absent. */
    method AddOneRule(s: nat, t: nat, c: nat, perm: Option<Perm>, kind: Kind, clear: bool)
      modifies this`te
      ensures te == Spread(old(te), {Key(s, t, c, kind)}, OrFull(perm), clear)
    {
      var key := Key(s, t, c, kind);
      var data: Word := if key in te then te[key] else {};
      if clear {
        data := if perm.None? then {} else data - {perm.value};
      } else {
        data := if perm.None? then FULL else data + {perm.value};
      }
      ghost var spread := Spread(te, {key}, OrFull(perm), clear);
      assert spread[key] == data by { FullIsFull(Get(te, key)); }
      forall k | k in te && k != key ensures spread[k] == te[k] {
        assert te[k] - {} == te[k] + {} == te[k];
      }
      te := te[key := data];
      SameTable(te, spread);
    }

    /** add_rule_auto: a missing source, target or class stands for all of them. */
    method AddRuleAuto(src: Option<nat>, tgt: Option<nat>, cls: Option<nat>, perm: Option<Perm>, kind: Kind,
                       clear: bool)
      requires cls.None? ==> perm.None?
      modifies this`te
      ensures te == Spread(old(te),
        Keys(OrAll(src, AllTypes(types)), OrAll(tgt, AllTypes(types)), OrAll(cls, AllClasses(classes)), kind),
        OrFull(perm), clear)
      decreases src.None?, tgt.None?, 2
    {
      if src.None? {
        AddRuleEachSource(tgt, cls, perm, kind, clear);
      } else if tgt.None? {
        AddRuleEachTarget(src.value, cls, perm, kind, clear);
      } else if cls.None? {
        AddRuleEachClass(src.value, tgt.value, kind, clear);
      } else {
        AddOneRule(src.value, tgt.value, cls.value, perm, kind, clear);
        assert Keys({src.value}, {tgt.value}, {cls.value}, kind) == {Key(src.value, tgt.value, cls.value, kind)};
      }
    }

    // The three hash-table walks of add_rule_auto.  The tables are walked in an arbitrary order.

    method AddRuleEachSource(tgt: Option<nat>, cls: Option<nat>, perm: Option<Perm>, kind: Kind, clear: bool)
      requires cls.None? ==> perm.None?
      modifies this`te
      ensures te == Spread(old(te),
        Keys(AllTypes(types), OrAll(tgt, AllTypes(types)), OrAll(cls, AllClasses(classes)), kind),
        OrFull(perm), clear)
      decreases true, tgt.None?, 1
    {
      ghost var w, ts, cs := OrFull(perm), OrAll(tgt, AllTypes(types)), OrAll(cls, AllClasses(classes));
      var todo := types.Keys;
      ghost var done: set<nat> := {};
      SpreadNone(te, w, clear);
      assert Keys(done, ts, cs, kind) == {};
      while todo != {}
        invariant todo <= types.Keys
        invariant done + (set m | m in todo :: types[m].value) == AllTypes(types)
        invariant te == Spread(old(te), Keys(done, ts, cs, kind), w, clear)
      {
        var n :| n in todo;
        var v := types[n].value;
        AddRuleAuto(Some(v), tgt, cls, perm, kind, clear);
        SpreadTwice(old(te), Keys(done, ts, cs, kind), Keys({v}, ts, cs, kind), w, clear);
        KeysGrow(done, ts, cs, v, kind);
        done, todo := done + {v}, todo - {n};
      }
      assert done == AllTypes(types);
    }

    method AddRuleEachTarget(src: nat, cls: Option<nat>, perm: Option<Perm>, kind: Kind, clear: bool)
      requires cls.None? ==> perm.None?
      modifies this`te
      ensures te == Spread(old(te),
        Keys({src}, AllTypes(types), OrAll(cls, AllClasses(classes)), kind), OrFull(perm), clear)
      decreases false, true, 1
    {
      ghost var w, cs := OrFull(perm), OrAll(cls, AllClasses(classes));
      var todo := types.Keys;
      ghost var done: set<nat> := {};
      SpreadNone(te, w, clear);
      assert Keys({src}, done, cs, kind) == {};
      while todo != {}
        invariant todo <= types.Keys
        invariant done + (set m | m in todo :: types[m].value) == AllTypes(types)
        invariant te == Spread(old(te), Keys({src}, done, cs, kind), w, clear)
      {
        var n :| n in todo;
        var v := types[n].value;
        AddRuleAuto(Some(src), Some(v), cls, perm, kind, clear);
        SpreadTwice(old(te), Keys({src}, done, cs, kind), Keys({src}, {v}, cs, kind), w, clear);
        KeysGrow({src}, done, cs, v, kind);
        done, todo := done + {v}, todo - {n};
      }
      assert done == AllTypes(types);
    }

    method AddRuleEachClass(src: nat, tgt: nat, kind: Kind, clear: bool)
      modifies this`te
      ensures te == Spread(old(te), Keys({src}, {tgt}, AllClasses(classes), kind), FULL, clear)
      decreases false, false, 1
    {
      var todo := classes.Keys;
      ghost var done: set<nat> := {};
      SpreadNone(te, FULL, clear);
      assert Keys({src}, {tgt}, done, kind) == {};
      while todo != {}
        invariant todo <= classes.Keys
        invariant done + (set m | m in todo :: classes[m].value) == AllClasses(classes)
        invariant te == Spread(old(te), Keys({src}, {tgt}, done, kind), FULL, clear)
      {
        var n :| n in todo;
        var v := classes[n].value;
        AddOneRule(src, tgt, v, None, kind, clear);
        assert Keys({src}, {tgt}, {v}, kind) == {Key(src, tgt, v, kind)};
        SpreadTwice(old(te), Keys({src}, {tgt}, done, kind), Keys({src}, {tgt}, {v}, kind), FULL, clear);
        KeysGrow({src}, {tgt}, done, v, kind);
        done, todo := done + {v}, todo - {n};
      }
      assert done == AllClasses(classes);
    }

    /** add_rule: resolves the names, then applies the rule; unresolvable rules change nothing. */
    method AddRule(r: Rule, kind: Kind, clear: bool) returns (err: bool)
      modifies this`te
      ensures err <==> !Resolves(old(View()), r)
      ensures te == Patch(old(te), RuleBits(old(View()), r, kind), clear)
    {
      PatchNothing(te, clear);
      if !Resolves(View(), r) { UnresolvedRule(View(), r, kind); }
      var src, tgt, cls: Option<ClassDatum>, perm := None, None, None, None;
      if r.source.Some? {
        if r.source.value !in types { return true; }
        src := Some(types[r.source.value].value);
      }
      if r.target.Some? {
        if r.target.value !in types { return true; }
        tgt := Some(types[r.target.value].value);
      }
      if r.cls.Some? {
        if r.cls.value !in classes { return true; }
        cls := Some(classes[r.cls.value]);
      }
      if r.perm.Some? {
        if r.cls.None? { return true; }
        if r.perm.value in cls.value.perms {
          perm := Some(cls.value.perms[r.perm.value]);
        }
        if perm.None? && cls.value.common.Some? && r.perm.value in cls.value.common.value {
          perm := Some(cls.value.common.value[r.perm.value]);
        }
        if perm.None? { return true; }
      }
      ghost var p := View();
      assert 1 in FULL;
      SpreadIsPatch(te, TypeValues(p, r.source), TypeValues(p, r.target), ClassValues(p, r.cls),
                    PermBits(p, r.cls, r.perm), kind, clear);
      AddRuleAuto(src, tgt, if cls.Some? then Some(cls.value.value) else None, perm, kind, clear);
      return false;
    }

    // The three nested product loops of parse_pattern_1, innermost first: one AddRule per source,
    // target and permission.  Rules that do not resolve are reported and skipped.  `p` is the
    // policy the statement started from; the loops change none of its names.

    method ApplyPerms(ghost p: Policy, a: Action, s: Name, t: Name, c: Name, qs: seq<Name>)
      requires p.types == types && p.classes == classes
      modifies this`te
      ensures te == Patch(old(te), Product(TypeValues(p, s), TypeValues(p, t), ClassValues(p, c),
                                           PermSet(p, c, qs), KindOf(a)), Clears(a))
    {
      ghost var sv, tv, cv := TypeValues(p, s), TypeValues(p, t), ClassValues(p, c);
      PatchNothing(te, Clears(a));
      for k := 0 to |qs|
        invariant te == Patch(old(te), Product(sv, tv, cv, PermSet(p, c, qs[..k]), KindOf(a)), Clears(a))
      {
        SameNames(View(), p, Rule(s, t, c, qs[k]), KindOf(a));
        var _ := AddRule(Rule(s, t, c, qs[k]), KindOf(a), Clears(a));
        PatchTwice(old(te), Product(sv, tv, cv, PermSet(p, c, qs[..k]), KindOf(a)),
                   Product(sv, tv, cv, PermBits(p, c, qs[k]), KindOf(a)), Clears(a));
        ProductGrowsBits(sv, tv, cv, PermSet(p, c, qs[..k]), PermBits(p, c, qs[k]), KindOf(a));
        PermSetGrows(p, c, qs, k);
      }
      assert qs[..|qs|] == qs;
    }

    method ApplyTargets(ghost p: Policy, a: Action, s: Name, ts: seq<Name>, c: Name, qs: seq<Name>)
      requires p.types == types && p.classes == classes
      modifies this`te
      ensures te == Patch(old(te), Product(TypeValues(p, s), TypeSet(p, ts), ClassValues(p, c),
                                           PermSet(p, c, qs), KindOf(a)), Clears(a))
    {
      ghost var sv, cv, w := TypeValues(p, s), ClassValues(p, c), PermSet(p, c, qs);
      PatchNothing(te, Clears(a));
      assert Product(sv, TypeSet(p, ts[..0]), cv, w, KindOf(a)) == map[];
      for j := 0 to |ts|
        invariant te == Patch(old(te), Product(sv, TypeSet(p, ts[..j]), cv, w, KindOf(a)), Clears(a))
      {
        ApplyPerms(p, a, s, ts[j], c, qs);
        PatchTwice(old(te), Product(sv, TypeSet(p, ts[..j]), cv, w, KindOf(a)),
                   Product(sv, TypeValues(p, ts[j]), cv, w, KindOf(a)), Clears(a));
        ProductGrows(sv, {}, TypeSet(p, ts[..j]), TypeValues(p, ts[j]), cv, w, w, KindOf(a));
        TypeSetGrows(p, ts, j);
      }
      assert ts[..|ts|] == ts;
    }

    method ApplyStatement(a: Action, ss: seq<Name>, ts: seq<Name>, c: Name, qs: seq<Name>)
      modifies this`te
      ensures View() == Meaning(old(View()), a, ss, ts, c, qs)
    {
      ghost var p := View();
      ghost var tv, cv, w := TypeSet(p, ts), ClassValues(p, c), PermSet(p, c, qs);
      PatchNothing(te, Clears(a));
      assert Product(TypeSet(p, ss[..0]), tv, cv, w, KindOf(a)) == map[];
      for i := 0 to |ss|
        invariant te == Patch(p.te, Product(TypeSet(p, ss[..i]), tv, cv, w, KindOf(a)), Clears(a))
      {
        ApplyTargets(p, a, ss[i], ts, c, qs);
        PatchTwice(p.te, Product(TypeSet(p, ss[..i]), tv, cv, w, KindOf(a)),
                   Product(TypeValues(p, ss[i]), tv, cv, w, KindOf(a)), Clears(a));
        ProductGrows(TypeSet(p, ss[..i]), TypeValues(p, ss[i]), tv, {}, cv, w, w, KindOf(a));
        TypeSetGrows(p, ss, i);
      }
      assert ss[..|ss|] == ss;
    }

    // ---------------------------------------------------------------- extended permissions

    /** __add_xperm_rule. */
    method AddOneXperm(s: nat, t: nat, c: nat, low: Code, high: Code, kind: XKind, clear: bool)
      modifies this`xte
      ensures xte == XPatch(old(xte), {XKey(s, t, c, kind)}, low, high, clear)
    {
      var key := XKey(s, t, c, kind);
      var av := if key in xte then xte[key]
                else if DriverOf(low) != DriverOf(high) then Driver({})
                else Function(DriverOf(low), {});
      var perms;
      if av.Driver? {
        perms := FillBits(av.perms, DriverOf(low), DriverOf(high), clear);
      } else {
        perms := FillBits(av.perms, FuncOf(low), FuncOf(high), clear);
      }
      xte := xte[key := av.(perms := perms)];
      assert xte.Keys == old(xte).Keys + {key};
    }

    /** add_xperm_rule_auto. */
    method AddXpermAuto(src: Option<nat>, tgt: Option<nat>, cls: Option<nat>, low: Code, high: Code, kind: XKind,
                        clear: bool)
      modifies this`xte
      ensures xte == XPatch(old(xte),
        XKeys(OrAll(src, AllTypes(types)), OrAll(tgt, AllTypes(types)), OrAll(cls, AllClasses(classes)), kind),
        low, high, clear)
      decreases src.None?, tgt.None?, 2
    {
      if src.None? {
        AddXpermEachSource(tgt, cls, low, high, kind, clear);
      } else if tgt.None? {
        AddXpermEachTarget(src.value, cls, low, high, kind, clear);
      } else if cls.None? {
        AddXpermEachClass(src.value, tgt.value, low, high, kind, clear);
      } else {
        AddOneXperm(src.value, tgt.value, cls.value, low, high, kind, clear);
        OneXKey(src.value, tgt.value, cls.value, kind);
      }
    }

    // The three hash-table walks of add_xperm_rule_auto, in an arbitrary order.

    method AddXpermEachSource(tgt: Option<nat>, cls: Option<nat>, low: Code, high: Code, kind: XKind, clear: bool)
      modifies this`xte
      ensures xte == XPatch(old(xte),
        XKeys(AllTypes(types), OrAll(tgt, AllTypes(types)), OrAll(cls, AllClasses(classes)), kind), low, high, clear)
      decreases true, tgt.None?, 1
    {
      ghost var ts, cs := OrAll(tgt, AllTypes(types)), OrAll(cls, AllClasses(classes));
      var todo := types.Keys;
      ghost var done: set<nat> := {};
      XPatchNone(xte, low, high, clear);
      assert XKeys(done, ts, cs, kind) == {};
      while todo != {}
        invariant todo <= types.Keys
        invariant done + (set m | m in todo :: types[m].value) == AllTypes(types)
        invariant xte == XPatch(old(xte), XKeys(done, ts, cs, kind), low, high, clear)
      {
        var n :| n in todo;
        var v := types[n].value;
        AddXpermAuto(Some(v), tgt, cls, low, high, kind, clear);
        XPatchTwice(old(xte), XKeys(done, ts, cs, kind), XKeys({v}, ts, cs, kind), low, high, clear);
        XKeysGrow(done, ts, cs, {v}, kind);
        done, todo := done + {v}, todo - {n};
      }
      assert done == AllTypes(types);
    }

    method AddXpermEachTarget(src: nat, cls: Option<nat>, low: Code, high: Code, kind: XKind, clear: bool)
      modifies this`xte
      ensures xte == XPatch(old(xte),
        XKeys({src}, AllTypes(types), OrAll(cls, AllClasses(classes)), kind), low, high, clear)
      decreases false, true, 1
    {
      ghost var cs := OrAll(cls, AllClasses(classes));
      var todo := types.Keys;
      ghost var done: set<nat> := {};
      XPatchNone(xte, low, high, clear);
      assert XKeys({src}, done, cs, kind) == {};
      while todo != {}
        invariant todo <= types.Keys
        invariant done + (set m | m in todo :: types[m].value) == AllTypes(types)
        invariant xte == XPatch(old(xte), XKeys({src}, done, cs, kind), low, high, clear)
      {
        var n :| n in todo;
        var v := types[n].value;
        AddXpermAuto(Some(src), Some(v), cls, low, high, kind, clear);
        XPatchTwice(old(xte), XKeys({src}, done, cs, kind), XKeys({src}, {v}, cs, kind), low, high, clear);
        XKeysGrow({src}, done, cs, {v}, kind);
        done, todo := done + {v}, todo - {n};
      }
      assert done == AllTypes(types);
    }

    method AddXpermEachClass(src: nat, tgt: nat, low: Code, high: Code, kind: XKind, clear: bool)
      modifies this`xte
      ensures xte == XPatch(old(xte), XKeys({src}, {tgt}, AllClasses(classes), kind), low, high, clear)
      decreases false, false, 1
    {
      var todo := classes.Keys;
      ghost var done: set<nat> := {};
      XPatchNone(xte, low, high, clear);
      assert XKeys({src}, {tgt}, done, kind) == {};
      while todo != {}
        invariant todo <= classes.Keys
        invariant done + (set m | m in todo :: classes[m].value) == AllClasses(classes)
        invariant xte == XPatch(old(xte), XKeys({src}, {tgt}, done, kind), low, high, clear)
      {
        var n :| n in todo;
        var v := classes[n].value;
        AddOneXperm(src, tgt, v, low, high, kind, clear);
        OneXKey(src, tgt, v, kind);
        XPatchTwice(old(xte), XKeys({src}, {tgt}, done, kind), XKeys({src}, {tgt}, {v}, kind), low, high, clear);
        XKeysGrow({src}, {tgt}, done, {v}, kind);
        done, todo := done + {v}, todo - {n};
      }
      assert done == AllClasses(classes);
    }

    /** add_xperm_rule, after the range has been read; a missing range is the full one. */
    method AddXpermRule(s: Name, t: Name, c: Name, range: Option<Range>, kind: XKind) returns (err: bool)
      modifies this`xte
      ensures var r := range.GetOr(FULL_RANGE);
        xte == XPatch(old(xte),
                      XKeys(TypeValues(old(View()), s), TypeValues(old(View()), t), ClassValues(old(View()), c), kind),
                      r.low, r.high, false)
      ensures err <==>
        (s.Some? && s.value !in types) || (t.Some? && t.value !in types) || (c.Some? && c.value !in classes)
    {
      var r := range.GetOr(FULL_RANGE);
      var src, tgt, cls := None, None, None;
      XPatchNone(xte, r.low, r.high, false);
      if s.Some? {
        if s.value !in types {
          assert XKeys({}, TypeValues(View(), t), ClassValues(View(), c), kind) == {};
          return true;
        }
        src := Some(types[s.value].value);
      }
      if t.Some? {
        if t.value !in types {
          assert XKeys(TypeValues(View(), s), {}, ClassValues(View(), c), kind) == {};
          return true;
        }
        tgt := Some(types[t.value].value);
      }
      if c.Some? {
        if c.value !in classes {
          assert XKeys(TypeValues(View(), s), TypeValues(View(), t), {}, kind) == {};
          return true;
        }
        cls := Some(classes[c.value].value);
      }
      AddXpermAuto(src, tgt, cls, r.low, r.high, kind, false);
      return false;
    }

    // The product loops of parse_pattern_5, innermost first.

    method ApplyXClasses(ghost p: Policy, kind: XKind, s: Name, t: Name, cs: seq<Name>, range: Option<Range>)
      requires p.types == types && p.classes == classes
      modifies this`xte
      ensures var r := range.GetOr(FULL_RANGE);
        xte == XPatch(old(xte), XKeys(TypeValues(p, s), TypeValues(p, t), ClassSet(p, cs), kind), r.low, r.high, false)
    {
      ghost var r, sv, tv := range.GetOr(FULL_RANGE), TypeValues(p, s), TypeValues(p, t);
      XPatchNone(xte, r.low, r.high, false);
      assert XKeys(sv, tv, ClassSet(p, cs[..0]), kind) == {};
      for k := 0 to |cs|
        invariant xte == XPatch(old(xte), XKeys(sv, tv, ClassSet(p, cs[..k]), kind), r.low, r.high, false)
      {
        SameXNames(View(), p, s, t, cs[k], kind);
        var _ := AddXpermRule(s, t, cs[k], range, kind);
        ghost var cv, done := ClassValues(p, cs[k]), ClassSet(p, cs[..k]);
        XPatchTwice(old(xte), XKeys(sv, tv, done, kind), XKeys(sv, tv, cv, kind), r.low, r.high, false);
        ClassSetGrows(p, cs, k);
        XKeysGrow(sv, tv, done, cv, kind);
      }
      assert cs[..|cs|] == cs;
    }

    method ApplyXTargets(ghost p: Policy, kind: XKind, s: Name, ts: seq<Name>, cs: seq<Name>, range: Option<Range>)
      requires p.types == types && p.classes == classes
      modifies this`xte
      ensures var r := range.GetOr(FULL_RANGE);
        xte == XPatch(old(xte), XKeys(TypeValues(p, s), TypeSet(p, ts), ClassSet(p, cs), kind), r.low, r.high, false)
    {
      ghost var r, sv, cv := range.GetOr(FULL_RANGE), TypeValues(p, s), ClassSet(p, cs);
      XPatchNone(xte, r.low, r.high, false);
      assert XKeys(sv, TypeSet(p, ts[..0]), cv, kind) == {};
      for j := 0 to |ts|
        invariant xte == XPatch(old(xte), XKeys(sv, TypeSet(p, ts[..j]), cv, kind), r.low, r.high, false)
      {
        ApplyXClasses(p, kind, s, ts[j], cs, range);
        ghost var tv, done := TypeValues(p, ts[j]), TypeSet(p, ts[..j]);
        XPatchTwice(old(xte), XKeys(sv, done, cv, kind), XKeys(sv, tv, cv, kind), r.low, r.high, false);
        TypeSetGrows(p, ts, j);
        XKeysGrow(sv, done, cv, tv, kind);
      }
      assert ts[..|ts|] == ts;
    }

    method ApplyXStatement(kind: XKind, ss: seq<Name>, ts: seq<Name>, cs: seq<Name>, range: Option<Range>)
      modifies this`xte
      ensures var r := range.GetOr(FULL_RANGE);
        View() == XMeaning(old(View()), kind, ss, ts, cs, r.low, r.high)
    {
      ghost var p, r := View(), range.GetOr(FULL_RANGE);
      ghost var tv, cv := TypeSet(p, ts), ClassSet(p, cs);
      XPatchNone(xte, r.low, r.high, false);
      assert XKeys(TypeSet(p, ss[..0]), tv, cv, kind) == {};
      for i := 0 to |ss|
        invariant xte == XPatch(p.xte, XKeys(TypeSet(p, ss[..i]), tv, cv, kind), r.low, r.high, false)
      {
        ApplyXTargets(p, kind, ss[i], ts, cs, range);
        ghost var sv, done := TypeValues(p, ss[i]), TypeSet(p, ss[..i]);
        XPatchTwice(p.xte, XKeys(done, tv, cv, kind), XKeys(sv, tv, cv, kind), r.low, r.high, false);
        TypeSetGrows(p, ss, i);
        XKeysGrow(done, tv, cv, sv, kind);
      }
      assert ss[..|ss|] == ss;
    }

    // ---------------------------------------------------------------- types and attributes

    /** set_attr. */
    method SetAttribute(a: string, v: nat) returns (err: bool)
      requires InRange(View()) && 1 <= v <= nprim
      modifies this`typeAttr, this`attrType
      ensures View() == SetAttr(old(View()), a, v)
      ensures err <==> !IsAttribute(View(), a)
    {
      if a !in types { return true; }
      if !types[a].isAttribute { return true; }
      var i, j := v - 1, types[a].value - 1;
      typeAttr := typeAttr[i := typeAttr[i] + {j}];
      attrType := attrType[j := attrType[j] + {i}];
      return false;
    }

    /** create_domain. */
    method CreateDomain(d: string) returns (err: bool)
      requires InRange(View())
      modifies this
      ensures View() == Create(old(View()), d)
      ensures err <==> d !in old(types) && !IsAttribute(old(View()), "domain")
    {
      if d in types { return false; }
      DeclareInRange(View(), d);
      DeclareType(d);
      err := SetAttribute("domain", nprim);
    }

    /** The new type itself: its value, its own bit and its roles. */
    method DeclareType(d: string)
      requires |typeAttr| == nprim
      modifies this
      ensures View() == Declare(old(View()), d)
    {
      nprim := nprim + 1;
      var value := nprim;
      types := types[d := TypeDatum(value, false)];
      OwnBit(typeAttr);
      typeAttr, attrType := typeAttr + [{}], attrType + [{}];
      typeAttr := typeAttr[value - 1 := typeAttr[value - 1] + {value - 1}];
      EnrolEverywhere(value - 1);
    }

    /** The loop over the roles in create_domain. */
    method EnrolEverywhere(bit: nat)
      modifies this`roles
      ensures roles == EnrolAll(old(roles), bit)
    {
      for i := 0 to |roles|
        invariant |roles| == |old(roles)|
        invariant forall k :: 0 <= k < |roles| ==>
          roles[k] == if k < i then Enrol(old(roles)[k], bit) else old(roles)[k]
      {
        roles := roles[i := Role(roles[i].types, roles[i].negset - {bit})];
        roles := roles[i := Role(roles[i].types + {bit}, roles[i].negset)];
      }
    }

    /** add_typeattribute: the error of set_attr is ignored. */
    method AddTypeAttribute(x: string, a: string) returns (err: bool)
      requires InRange(View())
      modifies this`typeAttr, this`attrType, this`constraints
      ensures View() == AttrAdd(old(View()), x, a)
      ensures err <==> x !in types
    {
      if x !in types { return true; }
      var v := types[x].value;
      var _ := SetAttribute(a, v);
      var id := if a in types && types[a].isAttribute then types[a].value else 1;
      var n := |constraints|;
      for i := 0 to n
        invariant |constraints| == n
        invariant View() == SetAttr(old(View()), a, v).(constraints := constraints)
        invariant forall k :: 0 <= k < n ==>
          constraints[k] == (if k < i then JoinClass(old(constraints)[k], id, v) else old(constraints)[k])
      {
        var cl := JoinConstraints(constraints[i], id, v);
        constraints := constraints[i := cl];
      }
      assert constraints == JoinAll(old(constraints), id, v);
      return false;
    }

    // ---------------------------------------------------------------- permissive types, transitions

    /** set_domain_state; all types are walked in an arbitrary order. */
    method SetDomainState(n: Name, on: bool) returns (err: bool)
      modifies this`permissive
      ensures View() == SetState(old(View()), n, on)
      ensures err <==> n.Some? && n.value !in types
    {
      ghost var was := permissive;
      err := false;
      if n.None? {
        var todo := types.Keys;
        ghost var done: set<nat> := {};
        assert was + done == was - done == was;
        while todo != {}
          invariant todo <= types.Keys
          invariant done + (set m | m in todo :: types[m].value) == AllTypes(types)
          invariant permissive == if on then was + done else was - done
        {
          var m :| m in todo;
          var v := types[m].value;
          permissive := if on then permissive + {v} else permissive - {v};
          assert (was + done) + {v} == was + (done + {v}) && (was - done) - {v} == was - (done + {v});
          done, todo := done + {v}, todo - {m};
        }
        assert done == AllTypes(types);
      } else if n.value !in types {
        assert was + {} == was - {} == was;
        err := true;
      } else {
        var v := types[n.value].value;
        permissive := if on then permissive + {v} else permissive - {v};
      }
    }

    /** add_transition. */
    method AddTypeTransition(s: string, t: string, c: string, d: string) returns (err: bool)
      modifies this`transitions
      ensures View() == AddTransition(old(View()), s, t, c, d)
      ensures err <==> !TransitionResolves(View(), s, t, c, d)
    {
      if s !in types { return true; }
      if t !in types { return true; }
      if c !in classes { return true; }
      if d !in types { return true; }
      transitions := transitions[TransKey(types[s].value, types[t].value, classes[c].value) := types[d].value];
      return false;
    }
  }

  lemma OwnBit(rows: seq<set<nat>>)
    ensures var n := |rows|; (rows + [{}])[n := (rows + [{}])[n] + {n}] == rows + [{n}]
  {
    var none: set<nat> := {};
    assert none + {|rows|} == {|rows|};
  }

  /** The xperm_set and xperm_clear loops of __add_xperm_rule. */
  method FillBits(bits: set<nat>, first: nat, last: nat, clear: bool) returns (r: set<nat>)
    ensures r == if clear then bits - Span(first, last) else bits + Span(first, last)
  {
    r := bits;
    var i := first;
    while i <= last
      invariant first <= i && (i <= last + 1 || i == first)
      invariant r == if clear then bits - Below(first, i) else bits + Below(first, i)
      decreases last - i
    {
      assert Below(first, i + 1) == Below(first, i) + {i};
      r := if clear then r - {i} else r + {i};
      i := i + 1;
    }
    assert Below(first, i) == Span(first, last);
  }

  /** The two inner loops of add_typeattribute, over one class's constraints. */
  method JoinConstraints(c: seq<seq<ConstraintExpr>>, id: nat, v: nat) returns (r: seq<seq<ConstraintExpr>>)
    requires 1 <= id && 1 <= v
    ensures r == JoinClass(c, id, v)
  {
    r := c;
    for i := 0 to |c|
      invariant |r| == |c|
      invariant forall k :: 0 <= k < |c| ==> r[k] == if k < i then JoinNode(c[k], id, v) else c[k]
    {
      var node := c[i];
      for j := 0 to |c[i]|
        invariant |node| == |c[i]|
        invariant forall k :: 0 <= k < |node| ==> node[k] == if k < j then JoinExpr(c[i][k], id, v) else c[i][k]
      {
        if node[j].Names? {
          if id - 1 in node[j].typeNames {
            node := node[j := Names(node[j].typeNames, node[j].names + {v - 1})];
          }
        }
      }
      assert node == JoinNode(c[i], id, v);
      r := r[i := node];
    }
  }
}
