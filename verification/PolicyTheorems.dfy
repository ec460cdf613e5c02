/** What the patched policy means to the kernel: effective access, constraint closure. */
module PolicyTheorems {
  import opened Wrappers
  import opened PolicyModel

  // ------------------------------------------------------------------ effective access

  // Types and attributes are named by their zero-based bit here.

  /** The rule table itself holds permission `b` for this pair. */
  predicate Granted(p: Policy, s: nat, t: nat, c: nat, b: Perm) {
    b in Get(p.te, Key(s + 1, t + 1, c, Allowed))
  }

  predicate TypeOf(p: Policy, v: nat) { v < p.nprim }

  /** Some attribute-or-self of the source is granted `b` on some attribute-or-self of the target. */
  ghost predicate Access(p: Policy, s: nat, t: nat, c: nat, b: Perm)
    requires InRange(p) && TypeOf(p, s) && TypeOf(p, t)
  {
    exists i, j :: i in p.typeAttr[s] && j in p.typeAttr[t] && Granted(p, i, j, c, b)
  }

  /** What value `a` alone is granted as a source on `t`, and as a target for `s`. */
  ghost predicate AsSource(p: Policy, a: nat, t: nat, c: nat, b: Perm)
    requires InRange(p) && TypeOf(p, t)
  {
    exists j :: j in p.typeAttr[t] && Granted(p, a, j, c, b)
  }

  ghost predicate AsTarget(p: Policy, s: nat, a: nat, c: nat, b: Perm)
    requires InRange(p) && TypeOf(p, s)
  {
    exists i :: i in p.typeAttr[s] && Granted(p, i, a, c, b)
  }

  /** Adding attribute `j` to type `v` adds exactly that attribute's access to `v`. */
  lemma AccessOfMember(p: Policy, q: Policy, v: nat, j: nat, s: nat, t: nat, c: nat, b: Perm)
    requires InRange(p) && InRange(q) && q.nprim == p.nprim && q.te == p.te
    requires TypeOf(p, v) && TypeOf(p, s) && TypeOf(p, t)
    requires q.typeAttr == p.typeAttr[v := p.typeAttr[v] + {j}]
    ensures Access(q, s, t, c, b) <==>
      || Access(p, s, t, c, b)
      || (s == v && AsSource(p, j, t, c, b))
      || (t == v && AsTarget(p, s, j, c, b))
      || (s == t == v && Granted(p, j, j, c, b))
  {
    forall i, k | i in q.typeAttr[s] && k in q.typeAttr[t] && Granted(q, i, k, c, b)
      ensures
      || Access(p, s, t, c, b)
      || (s == v && AsSource(p, j, t, c, b))
      || (t == v && AsTarget(p, s, j, c, b))
      || (s == t == v && Granted(p, j, j, c, b))
    {
      assert Granted(p, i, k, c, b);
    }
    forall i, k | i in p.typeAttr[s] && k in p.typeAttr[t] && Granted(p, i, k, c, b)
      ensures Access(q, s, t, c, b)
    {
      assert i in q.typeAttr[s] && k in q.typeAttr[t] && Granted(q, i, k, c, b);
    }
    if s == v {
      forall k | k in p.typeAttr[t] && Granted(p, j, k, c, b) ensures Access(q, s, t, c, b) {
        assert j in q.typeAttr[s] && k in q.typeAttr[t] && Granted(q, j, k, c, b);
      }
    }
    if t == v {
      forall i | i in p.typeAttr[s] && Granted(p, i, j, c, b) ensures Access(q, s, t, c, b) {
        assert i in q.typeAttr[s] && j in q.typeAttr[t] && Granted(q, i, j, c, b);
      }
    }
    if s == t == v && Granted(p, j, j, c, b) {
      assert j in q.typeAttr[s] && j in q.typeAttr[t] && Granted(q, j, j, c, b);
    }
  }

  /** attradd x a: x gains exactly a's access on top of its own, and nobody else gains any. */
  lemma AttrAddAccess(p: Policy, x: string, a: string, s: nat, t: nat, c: nat, b: Perm)
    requires InRange(p) && x in p.types && IsAttribute(p, a) && TypeOf(p, s) && TypeOf(p, t)
    ensures InRange(AttrAdd(p, x, a))
    ensures var v, at := p.types[x].value - 1, p.types[a].value - 1;
      Access(AttrAdd(p, x, a), s, t, c, b) <==>
      || Access(p, s, t, c, b)
      || (s == v && AsSource(p, at, t, c, b))
      || (t == v && AsTarget(p, s, at, c, b))
      || (s == t == v && Granted(p, at, at, c, b))
  {
    AttrAddInRange(p, x, a);
    AccessOfMember(p, AttrAdd(p, x, a), p.types[x].value - 1, p.types[a].value - 1, s, t, c, b);
  }

  lemma SetAttrInRange(p: Policy, a: string, v: nat)
    requires InRange(p) && TypeOf(p, v)
    ensures InRange(SetAttr(p, a, v + 1))
  {}

  lemma AnyConstraints(p: Policy, cs: Constraints)
    requires InRange(p)
    ensures InRange(p.(constraints := cs))
    ensures Valid(p) ==> Valid(p.(constraints := cs))
  {}

  lemma AttrAddInRange(p: Policy, x: string, a: string)
    requires InRange(p)
    ensures InRange(AttrAdd(p, x, a))
  {
    if x in p.types {
      var v := p.types[x].value;
      SetAttrInRange(p, a, v - 1);
      AnyConstraints(SetAttr(p, a, v), JoinAll(p.constraints, AttrId(p, a), v));
    }
  }

  lemma CreateInRange(p: Policy, d: string)
    requires InRange(p)
    ensures InRange(Create(p, d))
  {
    if d !in p.types {
      DeclareInRange(p, d);
      SetAttrInRange(Declare(p, d), "domain", p.nprim);
    }
  }

  /** A value beyond nprim has no rule. */
  lemma NoRuleBeyond(p: Policy, s: nat, t: nat, c: nat, b: Perm)
    requires Valid(p) && (!TypeOf(p, s) || !TypeOf(p, t))
    ensures !Granted(p, s, t, c, b)
  {}

  /** A freshly declared type has no access at all, and changes nobody else's. */
  lemma DeclareAccess(p: Policy, d: string, s: nat, t: nat, c: nat, b: Perm)
    requires Valid(p) && d !in p.types && TypeOf(Declare(p, d), s) && TypeOf(Declare(p, d), t)
    ensures InRange(Declare(p, d))
    ensures Access(Declare(p, d), s, t, c, b) <==>
      s < p.nprim && t < p.nprim && Access(p, s, t, c, b)
    ensures AsSource(Declare(p, d), s, t, c, b) <==> t < p.nprim && AsSource(p, s, t, c, b)
    ensures AsTarget(Declare(p, d), s, t, c, b) <==> s < p.nprim && AsTarget(p, s, t, c, b)
  {
    DeclareInRange(p, d);
    var q, v := Declare(p, d), p.nprim;
    assert q.typeAttr[v] == {v};
    forall i: nat, j: nat | Granted(q, i, j, c, b) ensures i < p.nprim && j < p.nprim && Granted(p, i, j, c, b) {
      assert Granted(p, i, j, c, b);
      if i >= p.nprim || j >= p.nprim { NoRuleBeyond(p, i, j, c, b); }
    }
    if s < p.nprim && t < p.nprim && Access(p, s, t, c, b) {
      var i, j :| i in p.typeAttr[s] && j in p.typeAttr[t] && Granted(p, i, j, c, b);
      assert i in q.typeAttr[s] && j in q.typeAttr[t] && Granted(q, i, j, c, b);
    }
    if t < p.nprim && AsSource(p, s, t, c, b) {
      var j :| j in p.typeAttr[t] && Granted(p, s, j, c, b);
      assert j in q.typeAttr[t] && Granted(q, s, j, c, b);
    }
    if s < p.nprim && AsTarget(p, s, t, c, b) {
      var i :| i in p.typeAttr[s] && Granted(p, i, t, c, b);
      assert i in q.typeAttr[s] && Granted(q, i, t, c, b);
    }
  }

  /** create d: the new domain has exactly the access of the `domain` attribute, in both
      directions, and all other accesses are as before. */
  lemma CreateAccess(p: Policy, d: string, s: nat, t: nat, c: nat, b: Perm)
    requires Valid(p) && d !in p.types && IsAttribute(p, "domain")
    requires TypeOf(Create(p, d), s) && TypeOf(Create(p, d), t)
    ensures InRange(Create(p, d))
    ensures var v, dom := p.nprim, p.types["domain"].value - 1;
      Access(Create(p, d), s, t, c, b) <==>
        if s == v && t == v then Granted(p, dom, dom, c, b)
        else if s == v then AsSource(p, dom, t, c, b)
        else if t == v then AsTarget(p, s, dom, c, b)
        else Access(p, s, t, c, b)
  {
    var q, v, dom := Declare(p, d), p.nprim, p.types["domain"].value - 1;
    DeclareInRange(p, d);
    CreateInRange(p, d);
    AccessOfMember(q, Create(p, d), v, dom, s, t, c, b);
    DeclareAccess(p, d, s, t, c, b);
    DeclareAccess(p, d, dom, t, c, b);
    DeclareAccess(p, d, s, dom, c, b);
  }

  lemma GrantedAfterAllow(p: Policy, ss: seq<Name>, ts: seq<Name>, c: Name, qs: seq<Name>, i: nat, j: nat, cls: nat,
                          b: Perm)
    ensures Granted(Meaning(p, Allow, ss, ts, c, qs), i, j, cls, b) <==>
      || Granted(p, i, j, cls, b)
      || (&& NamesClass(p, c, cls) && ListsPerm(p, c, qs, b)
          && ListsType(p, ss, i + 1) && ListsType(p, ts, j + 1))
  {
    MeaningOfStatement(p, Allow, ss, ts, c, qs, Key(i + 1, j + 1, cls, Allowed), b);
  }

  /** Type `v` is, or is a member of, one of the listed names. */
  ghost predicate Belongs(p: Policy, v: nat, ns: seq<Name>)
    requires InRange(p) && TypeOf(p, v)
  {
    exists i :: i in p.typeAttr[v] && ListsType(p, ns, i + 1)
  }

  /** allow on attributes grants the permissions, in the named class or in all of them, to every pair
      of members, and to no other pair. */
  lemma AllowAccess(p: Policy, ss: seq<Name>, ts: seq<Name>, c: Name, qs: seq<Name>, s: nat, t: nat, cls: nat, b: Perm)
    requires InRange(p) && TypeOf(p, s) && TypeOf(p, t)
    ensures Access(Meaning(p, Allow, ss, ts, c, qs), s, t, cls, b) <==>
      || Access(p, s, t, cls, b)
      || (&& NamesClass(p, c, cls) && ListsPerm(p, c, qs, b)
          && Belongs(p, s, ss) && Belongs(p, t, ts))
  {
    var q, named := Meaning(p, Allow, ss, ts, c, qs), NamesClass(p, c, cls) && ListsPerm(p, c, qs, b);
    forall i: nat, j: nat
      ensures Granted(q, i, j, cls, b) <==>
        Granted(p, i, j, cls, b) || (named && ListsType(p, ss, i + 1) && ListsType(p, ts, j + 1))
    {
      GrantedAfterAllow(p, ss, ts, c, qs, i, j, cls, b);
    }
    AccessAfter(p, q, ss, ts, named, s, t, cls, b);
  }

  /** From the pairs that are granted to the pairs that have access. */
  lemma AccessAfter(p: Policy, q: Policy, ss: seq<Name>, ts: seq<Name>, named: bool, s: nat, t: nat, cls: nat, b: Perm)
    requires InRange(p) && InRange(q) && q.nprim == p.nprim && q.typeAttr == p.typeAttr && TypeOf(p, s) && TypeOf(p, t)
    requires forall i: nat, j: nat :: Granted(q, i, j, cls, b) <==>
      Granted(p, i, j, cls, b) || (named && ListsType(p, ss, i + 1) && ListsType(p, ts, j + 1))
    ensures Access(q, s, t, cls, b) <==> Access(p, s, t, cls, b) || (named && Belongs(p, s, ss) && Belongs(p, t, ts))
  {
    if Access(p, s, t, cls, b) {
      var i, j :| i in p.typeAttr[s] && j in p.typeAttr[t] && Granted(p, i, j, cls, b);
      assert Granted(q, i, j, cls, b);
    }
    if named && Belongs(p, s, ss) && Belongs(p, t, ts) {
      var i :| i in p.typeAttr[s] && ListsType(p, ss, i + 1);
      var j :| j in p.typeAttr[t] && ListsType(p, ts, j + 1);
      assert Granted(q, i, j, cls, b);
    }
  }

  /** deny * * c q: afterwards no pair of types has any of the named permissions in any of the named
      classes. */
  lemma DenyEverywhere(p: Policy, c: Name, qs: seq<Name>, s: nat, t: nat, cls: nat, b: Perm)
    requires Valid(p) && TypeOf(p, s) && TypeOf(p, t)
    requires NamesClass(p, c, cls) && ListsPerm(p, c, qs, b)
    ensures !Access(Meaning(p, Deny, [None], [None], c, qs), s, t, cls, b)
  {
    var r := Meaning(p, Deny, [None], [None], c, qs);
    forall i, j | i in r.typeAttr[s] && j in r.typeAttr[t] ensures !Granted(r, i, j, cls, b) {
      var k := Key(i + 1, j + 1, cls, Allowed);
      MeaningOfStatement(p, Deny, [None], [None], c, qs, k, b);
      if k in p.te {
        var all: Name := None;
        assert all in [all] && NamesType(p, all, k.source) && NamesType(p, all, k.target);
      }
    }
  }

  /** Each action works on its own vector: access is decided by allow and deny alone. */
  lemma OnlyItsVector(p: Policy, a: Action, ss: seq<Name>, ts: seq<Name>, c: Name, qs: seq<Name>, s: nat, t: nat,
                      cls: nat)
    ensures var q := Meaning(p, a, ss, ts, c, qs);
      && (a in {AuditAllowing, AuditDenying} ==>
            Get(q.te, Key(s, t, cls, Allowed)) == Get(p.te, Key(s, t, cls, Allowed)))
      && (a != AuditAllowing ==> Get(q.te, Key(s, t, cls, AuditAllow)) == Get(p.te, Key(s, t, cls, AuditAllow)))
      && (a != AuditDenying ==> Get(q.te, Key(s, t, cls, AuditDeny)) == Get(p.te, Key(s, t, cls, AuditDeny)))
  {
    var bits := StatementBits(p, ss, ts, c, qs, KindOf(a));
    forall kind | kind != KindOf(a)
      ensures Get(Meaning(p, a, ss, ts, c, qs).te, Key(s, t, cls, kind)) == Get(p.te, Key(s, t, cls, kind))
    {
      var k := Key(s, t, cls, kind);
      GetPatch(p.te, bits, Clears(a), k);
      GetProduct(TypeSet(p, ss), TypeSet(p, ts), ClassValues(p, c), PermSet(p, c, qs), KindOf(a), k);
      assert Get(p.te, k) - {} == Get(p.te, k) + {} == Get(p.te, k);
    }
  }

  // ------------------------------------------------------------------ constraint closure

  ghost predicate ClosedExpr(members: set<nat>, e: ConstraintExpr, i: nat) {
    e.Names? && i in e.typeNames ==> members <= e.names
  }

  /** Every constraint that names type bit `i` names all members of `i`. */
  ghost predicate ClosedFor(p: Policy, i: nat)
    requires i < |p.attrType|
  {
    forall c, n, x :: 0 <= c < |p.constraints| && 0 <= n < |p.constraints[c]| && 0 <= x < |p.constraints[c][n]| ==>
      ClosedExpr(p.attrType[i], p.constraints[c][n][x], i)
  }

  /** `q` has the constraints of `p` with possibly larger name sets. */
  ghost predicate NamesGrow(p: Constraints, q: Constraints) {
    && |p| == |q|
    && (forall c :: 0 <= c < |p| ==> |p[c]| == |q[c]|)
    && (forall c, n :: 0 <= c < |p| && 0 <= n < |p[c]| ==> |p[c][n]| == |q[c][n]|)
    && (forall c, n, x :: 0 <= c < |p| && 0 <= n < |p[c]| && 0 <= x < |p[c][n]| ==> ExprGrows(p[c][n][x], q[c][n][x]))
  }

  ghost predicate ExprGrows(e: ConstraintExpr, f: ConstraintExpr) {
    e == f || (e.Names? && f.Names? && e.typeNames == f.typeNames && e.names <= f.names)
  }

  lemma AttrAddGrowsNames(p: Policy, x: string, a: string)
    requires InRange(p)
    ensures NamesGrow(p.constraints, AttrAdd(p, x, a).constraints)
  {}

  /** Every constraint that names type bit `i` names all members of `i` but perhaps the `missing`. */
  ghost predicate ClosedExcept(p: Policy, i: nat, missing: set<nat>)
    requires i < |p.attrType|
  {
    forall c, n, x :: 0 <= c < |p.constraints| && 0 <= n < |p.constraints[c]| && 0 <= x < |p.constraints[c][n]| ==>
      ClosedExpr(p.attrType[i] - missing, p.constraints[c][n][x], i)
  }

  lemma NothingMissing(p: Policy, i: nat)
    requires i < |p.attrType|
    ensures ClosedExcept(p, i, {}) <==> ClosedFor(p, i)
  {
    assert p.attrType[i] - {} == p.attrType[i];
  }

  lemma MoreMissing(p: Policy, i: nat, missing: set<nat>, more: set<nat>)
    requires i < |p.attrType| && ClosedExcept(p, i, missing) && missing <= more
    ensures ClosedExcept(p, i, more)
  {
    forall c, n, x | 0 <= c < |p.constraints| && 0 <= n < |p.constraints[c]| && 0 <= x < |p.constraints[c][n]|
      ensures ClosedExpr(p.attrType[i] - more, p.constraints[c][n][x], i)
    {
      assert ClosedExpr(p.attrType[i] - missing, p.constraints[c][n][x], i);
    }
  }

  /** Bit `i` belongs to attribute `a`. */
  predicate IsBit(p: Policy, a: string, i: nat) { IsAttribute(p, a) && p.types[a].value == i + 1 }

  /** attradd keeps what closure there is of every attribute, and supplies its own pair where it is missing. */
  lemma AttrAddClosure(p: Policy, x: string, a: string, i: nat, missing: set<nat>)
    requires InRange(p) && i < p.nprim && x in p.types && ClosedExcept(p, i, missing)
    ensures InRange(AttrAdd(p, x, a))
    ensures ClosedExcept(AttrAdd(p, x, a), i, if IsBit(p, a, i) then missing - {p.types[x].value - 1} else missing)
  {
    AttrAddInRange(p, x, a);
    var q, v := AttrAdd(p, x, a), p.types[x].value - 1;
    var left := if IsBit(p, a, i) then missing - {v} else missing;
    forall c, n, e | 0 <= c < |q.constraints| && 0 <= n < |q.constraints[c]| && 0 <= e < |q.constraints[c][n]|
      ensures ClosedExpr(q.attrType[i] - left, q.constraints[c][n][e], i)
    {
      assert ClosedExpr(p.attrType[i] - missing, p.constraints[c][n][e], i);
      assert q.constraints[c][n][e] == JoinExpr(p.constraints[c][n][e], AttrId(p, a), p.types[x].value);
    }
  }

  lemma AttrAddKeepsClosure(p: Policy, x: string, a: string, i: nat)
    requires InRange(p) && i < p.nprim && ClosedFor(p, i)
    ensures InRange(AttrAdd(p, x, a)) && ClosedFor(AttrAdd(p, x, a), i)
  {
    if x in p.types {
      NothingMissing(p, i);
      AttrAddClosure(p, x, a, i, {});
      NothingMissing(AttrAdd(p, x, a), i);
    }
  }

  predicate NamesToo(e: ConstraintExpr, i: nat, v: nat) { e.Names? && i in e.typeNames ==> v in e.names }

  /** Every constraint that names type bit `i` names bit `v` as well. */
  ghost predicate Mentions(p: Policy, i: nat, v: nat) {
    forall c, n, x :: 0 <= c < |p.constraints| && 0 <= n < |p.constraints[c]| && 0 <= x < |p.constraints[c][n]| ==>
      NamesToo(p.constraints[c][n][x], i, v)
  }

  /** create d keeps every closed attribute closed but `domain`, which stays closed if and only if the
      constraints that name it happen to name the new type's value already. */
  lemma CreateClosure(p: Policy, d: string, i: nat)
    requires Valid(p) && d !in p.types && IsAttribute(p, "domain") && i < p.nprim && ClosedFor(p, i)
    ensures InRange(Create(p, d))
    ensures ClosedFor(Create(p, d), i) <==> i == p.types["domain"].value - 1 ==> Mentions(p, i, p.nprim)
  {
    CreateInRange(p, d);
    var q, v := Create(p, d), p.nprim;
    if i == p.types["domain"].value - 1 {
      assert q.attrType[i] == p.attrType[i] + {v};
      forall c, n, x | 0 <= c < |p.constraints| && 0 <= n < |p.constraints[c]| && 0 <= x < |p.constraints[c][n]|
        ensures ClosedExpr(q.attrType[i], q.constraints[c][n][x], i) <==> NamesToo(p.constraints[c][n][x], i, v)
      {
        assert ClosedExpr(p.attrType[i], p.constraints[c][n][x], i);
      }
    } else {
      assert q.attrType[i] == p.attrType[i];
    }
  }

  /** A small policy with a constraint on `domain`: one attribute, one class, one expression naming both. */
  const ONE_CONSTRAINT := Policy(map["domain" := TypeDatum(1, true)], 1, map["file" := ClassDatum(1, map[], None)],
                                 map[], map[], {}, map[], [{0}], [{}], [], [[[Names({0}, {})]]])

  /** It is valid and closed, and creating any type leaves it open. */
  lemma CreateBreaksClosure(d: string)
    requires d != "domain"
    ensures Valid(ONE_CONSTRAINT) && ClosedFor(ONE_CONSTRAINT, 0)
    ensures InRange(Create(ONE_CONSTRAINT, d)) && !ClosedFor(Create(ONE_CONSTRAINT, d), 0)
  {
    CreateClosure(ONE_CONSTRAINT, d, 0);
    assert !NamesToo(ONE_CONSTRAINT.constraints[0][0][0], 0, 1);
  }

  lemma CreateClosedExcept(p: Policy, d: string, i: nat, missing: set<nat>)
    requires InRange(p) && i < p.nprim && ClosedExcept(p, i, missing)
    ensures InRange(Create(p, d))
    ensures ClosedExcept(Create(p, d), i, if d in p.types then missing else missing + {p.nprim})
  {
    CreateInRange(p, d);
    var q := Create(p, d);
    if d !in p.types {
      forall c, n, x | 0 <= c < |p.constraints| && 0 <= n < |p.constraints[c]| && 0 <= x < |p.constraints[c][n]|
        ensures ClosedExpr(q.attrType[i] - (missing + {p.nprim}), q.constraints[c][n][x], i)
      {
        assert ClosedExpr(p.attrType[i] - missing, p.constraints[c][n][x], i);
      }
    }
  }

  lemma CreatedIs(p: Policy, d: string)
    requires InRange(p) && d !in p.types
    ensures Create(p, d).types == p.types[d := TypeDatum(p.nprim + 1, false)]
    ensures Create(p, d).nprim == p.nprim + 1
  {}

  /** A type that alone is missing joins. */
  lemma JoinsDomain(p: Policy, x: string, i: nat, v: nat)
    requires InRange(p) && i < p.nprim && IsBit(p, "domain", i) && x in p.types && p.types[x].value == v + 1
    requires ClosedExcept(p, i, {} + {v})
    ensures InRange(AttrAdd(p, x, "domain")) && ClosedFor(AttrAdd(p, x, "domain"), i)
  {
    AttrAddClosure(p, x, "domain", i, {} + {v});
    assert {} + {v} - {v} == {};
    NothingMissing(AttrAdd(p, x, "domain"), i);
  }

  /** create d followed by attradd d domain keeps the closure of every attribute. */
  lemma CreateThenAttrAdd(p: Policy, d: string, i: nat)
    requires Valid(p) && d !in p.types && IsAttribute(p, "domain") && i < p.nprim && ClosedFor(p, i)
    ensures InRange(Create(p, d))
    ensures InRange(AttrAdd(Create(p, d), d, "domain")) && ClosedFor(AttrAdd(Create(p, d), d, "domain"), i)
  {
    CreateInRange(p, d);
    if IsBit(p, "domain", i) {
      NothingMissing(p, i);
      CreateClosedExcept(p, d, i, {});
      CreatedIs(p, d);
      JoinsDomain(Create(p, d), d, i, p.nprim);
    } else {
      CreateClosure(p, d, i);
      AttrAddKeepsClosure(Create(p, d), d, "domain", i);
    }
  }

  // ------------------------------------------------------------------ unknown attributes

  /** attradd with an attribute that does not exist changes nothing but the constraints that name the type with
      value 1, and so it is harmless if and only if those name the type already. */
  lemma UnknownAttribute(p: Policy, x: string, a: string)
    requires InRange(p) && x in p.types && !IsAttribute(p, a)
    ensures AttrAdd(p, x, a) == p.(constraints := AttrAdd(p, x, a).constraints)
    ensures AttrAdd(p, x, a) == p <==> Mentions(p, 0, p.types[x].value - 1)
  {
    var v, q := p.types[x].value - 1, AttrAdd(p, x, a);
    if Mentions(p, 0, v) {
      forall c, n, e | 0 <= c < |p.constraints| && 0 <= n < |p.constraints[c]| && 0 <= e < |p.constraints[c][n]|
        ensures q.constraints[c][n][e] == p.constraints[c][n][e]
      {
        assert NamesToo(p.constraints[c][n][e], 0, v);
        JoinKeeps(p.constraints[c][n][e], v);
      }
      SameConstraints(p.constraints, q.constraints);
    } else {
      var c, n, e :| 0 <= c < |p.constraints| && 0 <= n < |p.constraints[c]| && 0 <= e < |p.constraints[c][n]|
        && !NamesToo(p.constraints[c][n][e], 0, v);
      assert q.constraints[c][n][e] == JoinExpr(p.constraints[c][n][e], 1, v + 1);
      assert v in q.constraints[c][n][e].names;
    }
  }

  lemma JoinKeeps(e: ConstraintExpr, v: nat)
    requires NamesToo(e, 0, v)
    ensures JoinExpr(e, 1, v + 1) == e
  {
    if e.Names? && 0 in e.typeNames { assert e.names + {v} == e.names; }
  }

  lemma SameConstraints(p: Constraints, q: Constraints)
    requires |p| == |q| && forall c :: 0 <= c < |p| ==> |p[c]| == |q[c]|
    requires forall c, n :: 0 <= c < |p| && 0 <= n < |p[c]| ==> |p[c][n]| == |q[c][n]|
    requires forall c, n, e :: 0 <= c < |p| && 0 <= n < |p[c]| && 0 <= e < |p[c][n]| ==> q[c][n][e] == p[c][n][e]
    ensures p == q
  {
    forall c | 0 <= c < |p| ensures p[c] == q[c] {
      forall n | 0 <= n < |p[c]| ensures p[c][n] == q[c][n] {}
    }
  }

  /** In the small policy, a new type and an attribute nobody declared. */
  lemma UnknownAttributeHarms(d: string, a: string)
    requires d != "domain" && a != "domain"
    ensures InRange(Create(ONE_CONSTRAINT, d)) && d in Create(ONE_CONSTRAINT, d).types
    ensures AttrAdd(Create(ONE_CONSTRAINT, d), d, a) != Create(ONE_CONSTRAINT, d)
  {
    var q := Create(ONE_CONSTRAINT, d);
    CreateInRange(ONE_CONSTRAINT, d);
    assert q.types[d].value == 2 && !IsAttribute(q, a);
    UnknownAttribute(q, d, a);
    assert !NamesToo(q.constraints[0][0][0], 0, 1);
  }
}
