/** The policy database that jni/magiskpolicy/sepolicy.c patches, as a value.

    Hash tables are maps, bitmaps are sets.  The 32-bit access vector of a rule is the set of
    permission numbers 1..32 whose bit is set.  Type values are one-based as in libsepol; the bits
    of the type/attribute bitmaps are zero-based, so the bit of a type is its value minus one. */
module PolicyModel {
  import opened Wrappers

  type Perm = p: int | 1 <= p <= 32 witness 1
  type Word = set<Perm>
  type Name = Option<string>  // None is the wildcard `*`, which the C code passes as NULL

  const FULL: Word := set p: Perm | 1 <= p <= 32

  datatype Kind = Allowed | AuditAllow | AuditDeny
  datatype Key = Key(source: nat, target: nat, cls: nat, kind: Kind)
  type Table = map<Key, Word>

  datatype TypeDatum = TypeDatum(value: nat, isAttribute: bool)
  datatype ClassDatum = ClassDatum(value: nat, perms: map<string, Perm>, common: Option<map<string, Perm>>)
  datatype Role = Role(types: set<nat>, negset: set<nat>)

  /** One node of a constraint expression; only CEXPR_NAMES nodes have the two name sets. */
  datatype ConstraintExpr = Names(typeNames: set<nat>, names: set<nat>) | OtherExpr
  type Constraints = seq<seq<seq<ConstraintExpr>>>  // class, constraint node, expression node

  datatype XKind = XAllowed | XAuditAllow | XDontAudit
  datatype XKey = XKey(source: nat, target: nat, cls: nat, kind: XKind)
  datatype Xperms =
    | Driver(perms: set<nat>)                    // bit d: every command of driver d
    | Function(driver: nat, perms: set<nat>)     // bit f: command f of `driver`
  type XTable = map<XKey, Xperms>

  /** The types that objects of a class get by default. */
  datatype TransKey = TransKey(source: nat, target: nat, cls: nat)

  datatype Policy = Policy(
    types: map<string, TypeDatum>, nprim: nat,
    classes: map<string, ClassDatum>,
    te: Table, xte: XTable, permissive: set<nat>, transitions: map<TransKey, nat>,
    typeAttr: seq<set<nat>>, attrType: seq<set<nat>>,
    roles: seq<Role>, constraints: Constraints)

  // ------------------------------------------------------------------ what every run keeps

  ghost predicate NamedValue(types: map<string, TypeDatum>, v: nat) {
    exists n :: n in types && types[n].value == v
  }

  /** Table sizes agree with nprim, and every type value and bitmap bit is in range. */
  ghost predicate InRange(p: Policy) {
    && |p.typeAttr| == |p.attrType| == p.nprim
    && (forall n :: n in p.types ==> 1 <= p.types[n].value <= p.nprim)
    && (forall i, j :: 0 <= i < p.nprim && j in p.typeAttr[i] ==> j < p.nprim)
    && (forall i, j :: 0 <= i < p.nprim && j in p.attrType[i] ==> j < p.nprim)
  }

  /** The two bitmaps are transposes of each other off the diagonal. */
  ghost predicate Transposed(p: Policy)
    requires InRange(p)
  {
    forall i, j :: 0 <= i < p.nprim && 0 <= j < p.nprim && i != j ==>
      (j in p.typeAttr[i] <==> i in p.attrType[j])
  }

  /** A type counts as one of its own attributes. */
  ghost predicate OwnBits(p: Policy)
    requires InRange(p)
  {
    forall i :: 0 <= i < p.nprim ==> i in p.typeAttr[i]
  }

  /** Every rule speaks about types that have a name. */
  ghost predicate RulesNamed(p: Policy) {
    && (forall k :: k in p.te ==> NamedValue(p.types, k.source) && NamedValue(p.types, k.target))
    && (forall k :: k in p.xte ==> NamedValue(p.types, k.source) && NamedValue(p.types, k.target))
    && (forall v :: v in p.permissive ==> NamedValue(p.types, v))
    && (forall k :: k in p.transitions ==>
          NamedValue(p.types, k.source) && NamedValue(p.types, k.target) && NamedValue(p.types, p.transitions[k]))
  }

  ghost predicate Valid(p: Policy) {
    InRange(p) && Transposed(p) && OwnBits(p) && RulesNamed(p)
  }

  /** No two names share a value: the policy has no aliases. */
  ghost predicate UniqueValues(p: Policy) {
    forall m, n :: m in p.types && n in p.types && p.types[m].value == p.types[n].value ==> m == n
  }

  // ------------------------------------------------------------------ the rule table

  function Get(te: Table, k: Key): Word { if k in te then te[k] else {} }

  /** Sets (or clears) the bits of `m` in `te`; an absent key reads as no bits. */
  function Patch(te: Table, m: Table, clear: bool): Table {
    map k | k in te.Keys + m.Keys :: if clear then Get(te, k) - Get(m, k) else Get(te, k) + Get(m, k)
  }

  function Union(a: Table, b: Table): Table {
    map k | k in a.Keys + b.Keys :: Get(a, k) + Get(b, k)
  }

  lemma SameTable(a: Table, b: Table)
    requires a.Keys == b.Keys
    requires forall k :: k in a ==> a[k] == b[k]
    ensures a == b
  {}

  lemma GetPatch(te: Table, m: Table, clear: bool, k: Key)
    ensures Get(Patch(te, m, clear), k) == if clear then Get(te, k) - Get(m, k) else Get(te, k) + Get(m, k)
  {}

  lemma GetUnion(a: Table, b: Table, k: Key)
    ensures Get(Union(a, b), k) == Get(a, k) + Get(b, k)
  {}

  lemma WordLaws(w: Word, x: Word, y: Word)
    ensures (w - x) - y == w - (x + y)
    ensures (w + x) + y == w + (x + y)
  {}

  lemma PatchTwice(te: Table, a: Table, b: Table, clear: bool)
    ensures Patch(Patch(te, a, clear), b, clear) == Patch(te, Union(a, b), clear)
  {
    var l, r := Patch(Patch(te, a, clear), b, clear), Patch(te, Union(a, b), clear);
    assert l.Keys == r.Keys;
    forall k | k in l ensures Get(l, k) == Get(r, k) {
      GetPatch(Patch(te, a, clear), b, clear, k);
      GetPatch(te, a, clear, k);
      GetPatch(te, Union(a, b), clear, k);
      GetUnion(a, b, k);
      WordLaws(Get(te, k), Get(a, k), Get(b, k));
    }
    SameTable(l, r);
  }

  lemma PatchNothing(te: Table, clear: bool)
    ensures Patch(te, map[], clear) == te
  {
    forall k | k in te ensures Patch(te, map[], clear)[k] == te[k] {
      assert te[k] - {} == te[k] + {} == te[k];
    }
    SameTable(Patch(te, map[], clear), te);
  }

  // ------------------------------------------------------------------ name resolution

  function AllTypes(types: map<string, TypeDatum>): set<nat> { set m | m in types :: types[m].value }

  function AllClasses(classes: map<string, ClassDatum>): set<nat> { set m | m in classes :: classes[m].value }

  function OrAll(v: Option<nat>, all: set<nat>): set<nat> { if v.Some? then {v.value} else all }

  function OrFull(p: Option<Perm>): Word { if p.Some? then {p.value} else FULL }

  lemma FullIsFull(w: Word)
    ensures w - FULL == {} && w + FULL == FULL
  {}

  function TypeValues(p: Policy, n: Name): set<nat> {
    match n
    case None => AllTypes(p.types)
    case Some(s) => if s in p.types then {p.types[s].value} else {}
  }

  function ClassValues(p: Policy, n: Name): set<nat> {
    match n
    case None => AllClasses(p.classes)
    case Some(s) => if s in p.classes then {p.classes[s].value} else {}
  }

  /** A class's own permissions shadow those of the common class it inherits. */
  function LookupPerm(c: ClassDatum, p: string): Option<Perm> {
    if p in c.perms then Some(c.perms[p])
    else if c.common.Some? && p in c.common.value then Some(c.common.value[p])
    else None
  }

  /** The bits a permission name stands for in a class; a name needs a named class. */
  function PermBits(p: Policy, c: Name, q: Name): Word {
    match q
    case None => FULL
    case Some(s) =>
      if c.Some? && c.value in p.classes && LookupPerm(p.classes[c.value], s).Some?
      then {LookupPerm(p.classes[c.value], s).value}
      else {}
  }

  function Keys(ss: set<nat>, ts: set<nat>, cs: set<nat>, kind: Kind): set<Key> {
    set s, t, c | s in ss && t in ts && c in cs :: Key(s, t, c, kind)
  }

  function Uniform(ks: set<Key>, w: Word): Table { map k | k in ks :: w }

  /** One multiplied-out rule: a source, a target, a class and a permission. */
  datatype Rule = Rule(source: Name, target: Name, cls: Name, perm: Name)

  /** add_rule's error cases: an unknown name, or a permission without a class. */
  predicate Resolves(p: Policy, r: Rule) {
    && (r.source.Some? ==> r.source.value in p.types)
    && (r.target.Some? ==> r.target.value in p.types)
    && (r.cls.Some? ==> r.cls.value in p.classes)
    && (r.perm.Some? ==> r.cls.Some? && LookupPerm(p.classes[r.cls.value], r.perm.value).Some?)
  }

  /** The same non-empty set of bits on every key of sources x targets x classes. */
  function Product(ss: set<nat>, ts: set<nat>, cs: set<nat>, w: Word, kind: Kind): Table {
    if w == {} then map[] else Uniform(Keys(ss, ts, cs, kind), w)
  }

  function RuleBits(p: Policy, r: Rule, kind: Kind): Table {
    Product(TypeValues(p, r.source), TypeValues(p, r.target), ClassValues(p, r.cls),
            PermBits(p, r.cls, r.perm), kind)
  }

  lemma SameNames(p: Policy, q: Policy, r: Rule, kind: Kind)
    requires p.types == q.types && p.classes == q.classes
    ensures RuleBits(p, r, kind) == RuleBits(q, r, kind)
  {}

  lemma UnresolvedRule(p: Policy, r: Rule, kind: Kind)
    requires !Resolves(p, r)
    ensures RuleBits(p, r, kind) == map[]
  {
    assert PermBits(p, r.cls, r.perm) == {} || TypeValues(p, r.source) == {} || TypeValues(p, r.target) == {}
        || ClassValues(p, r.cls) == {};
    assert RuleBits(p, r, kind).Keys == {};
  }

  lemma UniformUnion(a: set<Key>, b: set<Key>, w: Word)
    ensures Union(Uniform(a, w), Uniform(b, w)) == Uniform(a + b, w)
  {
    forall k | k in a + b ensures Union(Uniform(a, w), Uniform(b, w))[k] == w {
      assert w + w == w + {} == {} + w == w;
    }
    SameTable(Union(Uniform(a, w), Uniform(b, w)), Uniform(a + b, w));
  }

  /** Every key of `ks` gets the same bits. */
  function Spread(te: Table, ks: set<Key>, w: Word, clear: bool): Table {
    Patch(te, Uniform(ks, w), clear)
  }

  lemma SpreadTwice(te: Table, a: set<Key>, b: set<Key>, w: Word, clear: bool)
    ensures Spread(Spread(te, a, w, clear), b, w, clear) == Spread(te, a + b, w, clear)
  {
    PatchTwice(te, Uniform(a, w), Uniform(b, w), clear);
    UniformUnion(a, b, w);
  }

  lemma SpreadNone(te: Table, w: Word, clear: bool)
    ensures Spread(te, {}, w, clear) == te
  {
    PatchNothing(te, clear);
    assert Uniform({}, w) == map[];
  }

  lemma KeysGrow(ss: set<nat>, ts: set<nat>, cs: set<nat>, v: nat, kind: Kind)
    ensures Keys(ss + {v}, ts, cs, kind) == Keys(ss, ts, cs, kind) + Keys({v}, ts, cs, kind)
    ensures Keys(ss, ts + {v}, cs, kind) == Keys(ss, ts, cs, kind) + Keys(ss, {v}, cs, kind)
    ensures Keys(ss, ts, cs + {v}, kind) == Keys(ss, ts, cs, kind) + Keys(ss, ts, {v}, kind)
  {}

  lemma SpreadIsPatch(te: Table, ss: set<nat>, ts: set<nat>, cs: set<nat>, w: Word, kind: Kind, clear: bool)
    requires w != {}
    ensures Spread(te, Keys(ss, ts, cs, kind), w, clear) == Patch(te, Product(ss, ts, cs, w, kind), clear)
  {}

  // ------------------------------------------------------------------ the meaning of a statement

  datatype Action = Allow | Deny | AuditAllowing | AuditDenying

  function KindOf(a: Action): Kind {
    match a case Allow => Allowed case Deny => Allowed case AuditAllowing => AuditAllow case AuditDenying => AuditDeny
  }

  function Clears(a: Action): bool { a == Deny }

  function TypeSet(p: Policy, ns: seq<Name>): set<nat> { set n, v | n in ns && v in TypeValues(p, n) :: v }

  function PermSet(p: Policy, c: Name, qs: seq<Name>): Word { set q, b | q in qs && b in PermBits(p, c, q) :: b }

  /** What `action { ss } { ts } c { qs }` sets or clears, with nothing multiplied out. */
  function StatementBits(p: Policy, ss: seq<Name>, ts: seq<Name>, c: Name, qs: seq<Name>, kind: Kind): Table {
    Product(TypeSet(p, ss), TypeSet(p, ts), ClassValues(p, c), PermSet(p, c, qs), kind)
  }

  /** The meaning of a type 1 statement. */
  function Meaning(p: Policy, a: Action, ss: seq<Name>, ts: seq<Name>, c: Name, qs: seq<Name>): Policy {
    p.(te := Patch(p.te, StatementBits(p, ss, ts, c, qs, KindOf(a)), Clears(a)))
  }

  lemma ProductGrows(s1: set<nat>, s2: set<nat>, t1: set<nat>, t2: set<nat>, cs: set<nat>, w1: Word, w2: Word,
                     kind: Kind)
    ensures Union(Product(s1, t1, cs, w1, kind), Product(s2, t1, cs, w1, kind)) == Product(s1 + s2, t1, cs, w1, kind)
    ensures Union(Product(s1, t1, cs, w1, kind), Product(s1, t2, cs, w1, kind)) == Product(s1, t1 + t2, cs, w1, kind)
    ensures Union(Product(s1, t1, cs, w1, kind), Product(s1, t1, cs, w2, kind)) == Product(s1, t1, cs, w1 + w2, kind)
  {
    if w1 != {} {
      UniformUnion(Keys(s1, t1, cs, kind), Keys(s2, t1, cs, kind), w1);
      assert Keys(s1, t1, cs, kind) + Keys(s2, t1, cs, kind) == Keys(s1 + s2, t1, cs, kind);
      UniformUnion(Keys(s1, t1, cs, kind), Keys(s1, t2, cs, kind), w1);
      assert Keys(s1, t1, cs, kind) + Keys(s1, t2, cs, kind) == Keys(s1, t1 + t2, cs, kind);
    } else {
      assert Union(map[], map[]) == map[];
    }
    ProductGrowsBits(s1, t1, cs, w1, w2, kind);
  }

  lemma ProductGrowsBits(ss: set<nat>, ts: set<nat>, cs: set<nat>, w1: Word, w2: Word, kind: Kind)
    ensures Union(Product(ss, ts, cs, w1, kind), Product(ss, ts, cs, w2, kind)) == Product(ss, ts, cs, w1 + w2, kind)
  {
    var a, b := Product(ss, ts, cs, w1, kind), Product(ss, ts, cs, w2, kind);
    var r := Product(ss, ts, cs, w1 + w2, kind);
    forall k | k in Union(a, b) ensures Union(a, b)[k] == Get(r, k) {
      GetUnion(a, b, k);
      assert w1 + {} == w1 && {} + w2 == w2;
    }
    SameTable(Union(a, b), r);
  }

  // ------------------------------------------------------------------ what names stand for

  // The symbol tables read directly, without the functions that the expansion uses.

  /** `n` names the type with value `v`, or any type. */
  ghost predicate NamesType(p: Policy, n: Name, v: nat) {
    if n.Some? then n.value in p.types && p.types[n.value].value == v
    else exists m :: m in p.types && p.types[m].value == v
  }

  ghost predicate NamesClass(p: Policy, n: Name, v: nat) {
    if n.Some? then n.value in p.classes && p.classes[n.value].value == v
    else exists m :: m in p.classes && p.classes[m].value == v
  }

  /** In the class `c`, `q` names permission `b`: the class's own, or else one of the common class it
      inherits; without a name every permission. */
  ghost predicate NamesPerm(p: Policy, c: Name, q: Name, b: Perm) {
    q.Some? ==>
      && c.Some? && c.value in p.classes
      && var d := p.classes[c.value];
         if q.value in d.perms then d.perms[q.value] == b
         else d.common.Some? && q.value in d.common.value && d.common.value[q.value] == b
  }

  /** One of the listed names stands for it. */
  ghost predicate ListsType(p: Policy, ns: seq<Name>, v: nat) { exists n :: n in ns && NamesType(p, n, v) }
  ghost predicate ListsClass(p: Policy, ns: seq<Name>, v: nat) { exists n :: n in ns && NamesClass(p, n, v) }
  ghost predicate ListsPerm(p: Policy, c: Name, qs: seq<Name>, b: Perm) { exists q :: q in qs && NamesPerm(p, c, q, b) }

  lemma TypeValuesAre(p: Policy, n: Name, v: nat)
    ensures v in TypeValues(p, n) <==> NamesType(p, n, v)
  {}

  lemma ClassValuesAre(p: Policy, n: Name, v: nat)
    ensures v in ClassValues(p, n) <==> NamesClass(p, n, v)
  {}

  lemma PermBitsAre(p: Policy, c: Name, q: Name, b: Perm)
    ensures b in PermBits(p, c, q) <==> NamesPerm(p, c, q, b)
  {}

  lemma TypeSetIs(p: Policy, ns: seq<Name>, v: nat)
    ensures v in TypeSet(p, ns) <==> ListsType(p, ns, v)
  {
    forall n | n in ns ensures v in TypeValues(p, n) <==> NamesType(p, n, v) { TypeValuesAre(p, n, v); }
  }

  lemma PermSetIs(p: Policy, c: Name, qs: seq<Name>, b: Perm)
    ensures b in PermSet(p, c, qs) <==> ListsPerm(p, c, qs, b)
  {
    forall q | q in qs ensures b in PermBits(p, c, q) <==> NamesPerm(p, c, q, b) { PermBitsAre(p, c, q, b); }
  }

  ghost predicate Bit(te: Table, k: Key, b: Perm) { k in te && b in te[k] }

  /** Bit by bit, from the symbol tables alone: the named bits are set (or cleared) and nothing else moves. */
  lemma MeaningOfStatement(p: Policy, a: Action, ss: seq<Name>, ts: seq<Name>, c: Name, qs: seq<Name>, k: Key, b: Perm)
    ensures Bit(Meaning(p, a, ss, ts, c, qs).te, k, b) <==>
      if && k.kind == (if a == AuditAllowing then AuditAllow else if a == AuditDenying then AuditDeny else Allowed)
         && ListsType(p, ss, k.source) && ListsType(p, ts, k.target)
         && NamesClass(p, c, k.cls) && ListsPerm(p, c, qs, b)
      then a != Deny
      else Bit(p.te, k, b)
    ensures Meaning(p, a, ss, ts, c, qs) == p.(te := Meaning(p, a, ss, ts, c, qs).te)
  {
    GetPatch(p.te, StatementBits(p, ss, ts, c, qs, KindOf(a)), Clears(a), k);
    GetProduct(TypeSet(p, ss), TypeSet(p, ts), ClassValues(p, c), PermSet(p, c, qs), KindOf(a), k);
    TypeSetIs(p, ss, k.source);
    TypeSetIs(p, ts, k.target);
    ClassValuesAre(p, c, k.cls);
    PermSetIs(p, c, qs, b);
  }

  /** add_rule reports an error exactly if a name is unknown, or a permission has no class or is neither one
      of the class's own nor inherited. */
  lemma ResolvesExactly(p: Policy, r: Rule)
    ensures Resolves(p, r) <==>
      && (r.source.Some? ==> r.source.value in p.types)
      && (r.target.Some? ==> r.target.value in p.types)
      && (r.cls.Some? ==> r.cls.value in p.classes)
      && exists b: Perm :: NamesPerm(p, r.cls, r.perm, b)
  {
    if r.perm.None? {
      assert NamesPerm(p, r.cls, r.perm, 1);
    } else if r.cls.Some? && r.cls.value in p.classes && LookupPerm(p.classes[r.cls.value], r.perm.value).Some? {
      assert NamesPerm(p, r.cls, r.perm, LookupPerm(p.classes[r.cls.value], r.perm.value).value);
    }
  }

  /** The order in which names are listed, and repetitions, are irrelevant. */
  lemma MeaningIgnoresOrder(p: Policy, a: Action, ss: seq<Name>, ts: seq<Name>, c: Name, qs: seq<Name>,
                            ss': seq<Name>, ts': seq<Name>, qs': seq<Name>)
    requires forall n :: n in ss <==> n in ss'
    requires forall n :: n in ts <==> n in ts'
    requires forall n :: n in qs <==> n in qs'
    ensures Meaning(p, a, ss, ts, c, qs) == Meaning(p, a, ss', ts', c, qs')
  {
    assert TypeSet(p, ss) == TypeSet(p, ss');
    assert TypeSet(p, ts) == TypeSet(p, ts');
    assert PermSet(p, c, qs) == PermSet(p, c, qs');
  }

  lemma GetProduct(ss: set<nat>, ts: set<nat>, cs: set<nat>, w: Word, kind: Kind, k: Key)
    ensures Get(Product(ss, ts, cs, w, kind), k) ==
      if k.source in ss && k.target in ts && k.cls in cs && k.kind == kind then w else {}
  {}

  lemma TypeSetGrows(p: Policy, ns: seq<Name>, i: nat)
    requires i < |ns|
    ensures TypeSet(p, ns[..i + 1]) == TypeSet(p, ns[..i]) + TypeValues(p, ns[i])
  {
    assert ns[..i + 1] == ns[..i] + [ns[i]];
  }

  lemma PermSetGrows(p: Policy, c: Name, qs: seq<Name>, i: nat)
    requires i < |qs|
    ensures PermSet(p, c, qs[..i + 1]) == PermSet(p, c, qs[..i]) + PermBits(p, c, qs[i])
  {
    assert qs[..i + 1] == qs[..i] + [qs[i]];
  }

  // ------------------------------------------------------------------ types and attributes

  predicate IsAttribute(p: Policy, a: string) { a in p.types && p.types[a].isAttribute }

  /** set_attr: type value `v` joins attribute `a`; an unknown attribute changes nothing. */
  ghost function SetAttr(p: Policy, a: string, v: nat): Policy
    requires InRange(p) && 1 <= v <= p.nprim
  {
    if !IsAttribute(p, a) then p
    else
      var i, j := v - 1, p.types[a].value - 1;
      p.(typeAttr := p.typeAttr[i := p.typeAttr[i] + {j}], attrType := p.attrType[j := p.attrType[j] + {i}])
  }

  /** get_attr_id: value 1 stands in for an unknown attribute. */
  function AttrId(p: Policy, a: string): nat { if IsAttribute(p, a) then p.types[a].value else 1 }

  function JoinExpr(e: ConstraintExpr, id: nat, v: nat): ConstraintExpr
    requires 1 <= id && 1 <= v
  {
    if e.Names? && id - 1 in e.typeNames then Names(e.typeNames, e.names + {v - 1}) else e
  }

  function JoinNode(n: seq<ConstraintExpr>, id: nat, v: nat): seq<ConstraintExpr>
    requires 1 <= id && 1 <= v
  {
    seq(|n|, i requires 0 <= i < |n| => JoinExpr(n[i], id, v))
  }

  function JoinClass(c: seq<seq<ConstraintExpr>>, id: nat, v: nat): seq<seq<ConstraintExpr>>
    requires 1 <= id && 1 <= v
  {
    seq(|c|, i requires 0 <= i < |c| => JoinNode(c[i], id, v))
  }

  function JoinAll(cs: Constraints, id: nat, v: nat): Constraints
    requires 1 <= id && 1 <= v
  {
    seq(|cs|, i requires 0 <= i < |cs| => JoinClass(cs[i], id, v))
  }

  /** add_typeattribute: the bitmaps, then every constraint that names the attribute. */
  ghost function AttrAdd(p: Policy, x: string, a: string): Policy
    requires InRange(p)
  {
    if x !in p.types then p
    else
      var v := p.types[x].value;
      SetAttr(p, a, v).(constraints := JoinAll(p.constraints, AttrId(p, a), v))
  }

  function Enrol(r: Role, i: nat): Role { Role(r.types + {i}, r.negset - {i}) }

  function EnrolAll(rs: seq<Role>, i: nat): seq<Role> {
    seq(|rs|, k requires 0 <= k < |rs| => Enrol(rs[k], i))
  }

  /** The policy with a fresh type `d` that has no attribute yet. */
  ghost function Declare(p: Policy, d: string): Policy {
    p.(types := p.types[d := TypeDatum(p.nprim + 1, false)], nprim := p.nprim + 1,
       typeAttr := p.typeAttr + [{p.nprim}], attrType := p.attrType + [{}],
       roles := EnrolAll(p.roles, p.nprim))
  }

  lemma DeclareInRange(p: Policy, d: string)
    requires InRange(p) && d !in p.types
    ensures InRange(Declare(p, d))
  {}

  /** create_domain. */
  ghost function Create(p: Policy, d: string): Policy
    requires InRange(p)
  {
    if d in p.types then p
    else
      DeclareInRange(p, d);
      SetAttr(Declare(p, d), "domain", p.nprim + 1)
  }

  // ------------------------------------------------------------------ permissive types, transitions

  /** set_domain_state: the named types, or all of them, become permissive or enforcing. */
  function SetState(p: Policy, n: Name, on: bool): Policy {
    p.(permissive := if on then p.permissive + TypeValues(p, n) else p.permissive - TypeValues(p, n))
  }

  /** add_transition's error cases. */
  predicate TransitionResolves(p: Policy, s: string, t: string, c: string, d: string) {
    s in p.types && t in p.types && c in p.classes && d in p.types
  }

  /** add_transition: one entry is set, or nothing for an unknown name. */
  function AddTransition(p: Policy, s: string, t: string, c: string, d: string): Policy {
    if !TransitionResolves(p, s, t, c, d) then p
    else p.(transitions :=
      p.transitions[TransKey(p.types[s].value, p.types[t].value, p.classes[c].value) := p.types[d].value])
  }

  // ------------------------------------------------------------------ what the commands do, field by field

  /** attradd, row by row: type x gets attribute a, attribute a gets member x, and nothing else moves. */
  lemma AttrAddRows(p: Policy, x: string, a: string, i: nat)
    requires InRange(p) && i < p.nprim
    ensures var q := AttrAdd(p, x, a);
      var joins := x in p.types && a in p.types && p.types[a].isAttribute;
      && q == p.(typeAttr := q.typeAttr, attrType := q.attrType, constraints := q.constraints)
      && |q.typeAttr| == |q.attrType| == p.nprim
      && q.typeAttr[i] == p.typeAttr[i] + (if joins && p.types[x].value == i + 1 then {p.types[a].value - 1} else {})
      && q.attrType[i] == p.attrType[i] + (if joins && p.types[a].value == i + 1 then {p.types[x].value - 1} else {})
  {
    assert p.typeAttr[i] + {} == p.typeAttr[i] && p.attrType[i] + {} == p.attrType[i];
  }

  ghost predicate ExprAt(cs: Constraints, c: int, n: int, e: int) {
    0 <= c < |cs| && 0 <= n < |cs[c]| && 0 <= e < |cs[c][n]|
  }

  /** attradd, expression by expression: only those that name the attribute, or the type with value 1 in place of
      an unknown one, gain x and nothing but x. */
  lemma AttrAddExpr(p: Policy, x: string, a: string, c: int, n: int, e: int)
    requires InRange(p)
    ensures var cs := AttrAdd(p, x, a).constraints;
      && (ExprAt(cs, c, n, e) <==> ExprAt(p.constraints, c, n, e))
      && (ExprAt(p.constraints, c, n, e) ==>
            var was := p.constraints[c][n][e];
            var id := if a in p.types && p.types[a].isAttribute then p.types[a].value else 1;
            cs[c][n][e] ==
              if x in p.types && was.Names? && id - 1 in was.typeNames
              then Names(was.typeNames, was.names + {p.types[x].value - 1})
              else was)
  {}

  /** create: a known name changes nothing; a new one becomes a type with the next value in every role. */
  lemma CreateFields(p: Policy, d: string, i: nat)
    requires InRange(p)
    ensures d in p.types ==> Create(p, d) == p
    ensures d !in p.types ==>
      var q := Create(p, d);
      && q == p.(types := q.types, nprim := q.nprim, typeAttr := q.typeAttr, attrType := q.attrType, roles := q.roles)
      && q.types == p.types[d := TypeDatum(p.nprim + 1, false)] && q.nprim == p.nprim + 1 && |q.roles| == |p.roles|
      && (i < |p.roles| ==> q.roles[i] == Role(p.roles[i].types + {p.nprim}, p.roles[i].negset - {p.nprim}))
  {}

  /** create, row by row: the new type has itself and `domain`, which gains it as a member; no other row moves. */
  lemma CreateRows(p: Policy, d: string, i: nat)
    requires InRange(p) && d !in p.types
    ensures var q := Create(p, d);
      var dom := "domain" in p.types && p.types["domain"].isAttribute;
      && |q.typeAttr| == |q.attrType| == p.nprim + 1
      && q.typeAttr[p.nprim] == {p.nprim} + (if dom then {p.types["domain"].value - 1} else {})
      && q.attrType[p.nprim] == {}
      && (i < p.nprim ==> q.typeAttr[i] == p.typeAttr[i])
      && (i < p.nprim ==>
            q.attrType[i] == p.attrType[i] + (if dom && p.types["domain"].value == i + 1 then {p.nprim} else {}))
  {
    DeclareInRange(p, d);
    var none: set<nat> := {};
    assert {p.nprim} + none == {p.nprim};
    assert i < p.nprim ==> p.attrType[i] + none == p.attrType[i];
  }

  /** permissive and enforce, type by type. */
  lemma StateOf(p: Policy, n: Name, on: bool, v: nat)
    ensures SetState(p, n, on) == p.(permissive := SetState(p, n, on).permissive)
    ensures v in SetState(p, n, on).permissive <==> if NamesType(p, n, v) then on else v in p.permissive
  {
    TypeValuesAre(p, n, v);
  }

  /** typetrans: the key of the three names gets the fourth as its default, all others keep theirs; an unknown
      name changes nothing. */
  lemma TransitionOf(p: Policy, s: string, t: string, c: string, d: string, k: TransKey)
    ensures var q := AddTransition(p, s, t, c, d);
      var known := s in p.types && t in p.types && c in p.classes && d in p.types;
      var hit := known && k.source == p.types[s].value && k.target == p.types[t].value && k.cls == p.classes[c].value;
      && q == p.(transitions := q.transitions)
      && (k in q.transitions <==> hit || k in p.transitions)
      && (k in q.transitions ==> q.transitions[k] == if hit then p.types[d].value else p.transitions[k])
  {}
}
