/** Extended permissions of jni/magiskpolicy/sepolicy.c: 16-bit ioctl codes, a driver byte above a
    function byte, and entries that permit either whole drivers or functions of one driver. */
module Ioctl {
  import opened PolicyModel

  type Code = x: int | 0 <= x < 0x1_0000

  function DriverOf(x: Code): nat { x / 256 }
  function FuncOf(x: Code): nat { x % 256 }

  /** A code is its driver byte above its function byte. */
  lemma CodeBytes(x: Code)
    ensures x == 256 * DriverOf(x) + FuncOf(x) && FuncOf(x) < 256
  {}

  /** What an entry means: the codes it speaks about. */
  predicate Permitted(x: Xperms, code: Code) {
    match x
    case Driver(ds) => DriverOf(code) in ds
    case Function(d, fs) => DriverOf(code) == d && FuncOf(code) in fs
  }

  predicate Within(lo: nat, i: nat, hi: nat) { lo <= i <= hi }

  function Span(lo: nat, hi: nat): set<nat> { set i: nat | lo <= i <= hi && Within(lo, i, hi) }

  /** The numbers from `lo` up to but not including `n`. */
  ghost function Below(lo: nat, n: nat): set<nat> { if n == 0 then {} else Span(lo, n - 1) }

  /** The kind and driver a new entry gets. */
  function Fresh(low: Code, high: Code): Xperms {
    if DriverOf(low) != DriverOf(high) then Driver({}) else Function(DriverOf(low), {})
  }

  /** __add_xperm_rule on an existing entry: its kind decides which byte of the range is used. */
  function AddRange(x: Xperms, low: Code, high: Code, clear: bool): Xperms {
    var span := if x.Driver? then Span(DriverOf(low), DriverOf(high)) else Span(FuncOf(low), FuncOf(high));
    x.(perms := if clear then x.perms - span else x.perms + span)
  }

  /** For a new key the codes permitted are exactly the range when both ends share a driver, and
      otherwise all codes of the drivers from the first to the last; a reversed range permits none. */
  lemma FreshRange(low: Code, high: Code, code: Code)
    ensures Permitted(AddRange(Fresh(low, high), low, high, false), code) <==>
      if DriverOf(low) == DriverOf(high) then low <= code <= high
      else DriverOf(low) <= DriverOf(code) <= DriverOf(high)
  {}

  /** Those drivers are the fewest whole drivers that contain the range. */
  lemma FewestDrivers(low: Code, high: Code, drivers: set<nat>)
    requires low <= high
    ensures (forall code: Code :: low <= code <= high ==> DriverOf(code) in drivers) <==>
            Span(DriverOf(low), DriverOf(high)) <= drivers
  {
    if forall code: Code :: low <= code <= high ==> DriverOf(code) in drivers {
      forall d | d in Span(DriverOf(low), DriverOf(high)) ensures d in drivers {
        var code: Code := if d == DriverOf(low) then low else d * 256;
        assert low <= code <= high && DriverOf(code) == d;
      }
    }
  }

  /** Taking a range away withdraws exactly the codes that adding it would have given the entry. */
  lemma RemoveRange(x: Xperms, low: Code, high: Code, code: Code)
    ensures Permitted(AddRange(x, low, high, true), code) <==>
      Permitted(x, code) && !Permitted(AddRange(x.(perms := {}), low, high, false), code)
  {}

  /** `*` on a new entry permits every code. */
  lemma EveryCode(code: Code)
    ensures Permitted(AddRange(Fresh(FULL_RANGE.low, FULL_RANGE.high), FULL_RANGE.low, FULL_RANGE.high, false), code)
    ensures FULL_RANGE.low <= code <= FULL_RANGE.high
  {}

  /** The range lies where the entry can express it. */
  predicate Expressible(x: Xperms, low: Code, high: Code) {
    low > high || x.Driver? || x.driver == DriverOf(low) == DriverOf(high)
  }

  ghost predicate Covers(x: Xperms, low: Code, high: Code) {
    forall code: Code :: low <= code <= high ==> Permitted(x, code)
  }

  /** Adding a range to an entry covers the range exactly when the entry can express it: a
      function-kind entry silently ignores that the range belongs to another driver. */
  lemma AddCovers(x: Xperms, low: Code, high: Code)
    ensures Covers(AddRange(x, low, high, false), low, high) <==> Expressible(x, low, high)
  {
    var y := AddRange(x, low, high, false);
    if !Expressible(x, low, high) {
      var code := if DriverOf(low) != x.driver then low else high;
      assert low <= code <= high && !Permitted(y, code);
    }
  }

  /** An input that falls in the gap: 0x5401 is not permitted, 0x8901 is. */
  lemma MismatchedDriver()
    ensures var y := AddRange(Function(0x89, {}), 0x5401, 0x5401, false);
      !Permitted(y, 0x5401) && Permitted(y, 0x8901)
  {
    assert 1 in Span(1, 1);
  }

  datatype Range = Range(low: Code, high: Code)

  /** The range that `*` stands for. */
  const FULL_RANGE := Range(0, 0xFFFF)

  /** `y` is the entry `x` after further additions: same kind, same driver, no permission lost. */
  predicate Extends(x: Xperms, y: Xperms) {
    x.Driver? == y.Driver? && (x.Function? ==> x.driver == y.driver) && x.perms <= y.perms
  }

  lemma AddExtends(x: Xperms, low: Code, high: Code)
    ensures Extends(x, AddRange(x, low, high, false))
  {}

  lemma ExtendsPermits(x: Xperms, y: Xperms, code: Code)
    requires Extends(x, y) && Permitted(x, code)
    ensures Permitted(y, code)
  {}

  /** Whatever is added later, a range is covered exactly when the entry could express it. */
  lemma CoveredForGood(x: Xperms, y: Xperms, low: Code, high: Code)
    requires Extends(AddRange(x, low, high, false), y)
    ensures Covers(y, low, high) <==> Expressible(x, low, high)
  {
    var z := AddRange(x, low, high, false);
    AddCovers(x, low, high);
    if Expressible(x, low, high) {
      forall code: Code | low <= code <= high ensures Permitted(y, code) { ExtendsPermits(z, y, code); }
    } else {
      var code := if DriverOf(low) != x.driver then low else high;
      assert low <= code <= high && !Permitted(y, code);
    }
  }

  // ------------------------------------------------------------------ the table

  function XKeys(ss: set<nat>, ts: set<nat>, cs: set<nat>, kind: XKind): set<XKey> {
    set s, t, c | s in ss && t in ts && c in cs :: XKey(s, t, c, kind)
  }

  function Entry(xte: XTable, k: XKey, low: Code, high: Code): Xperms {
    if k in xte then xte[k] else Fresh(low, high)
  }

  /** The range is added to (or taken from) every key of `ks`. */
  function XPatch(xte: XTable, ks: set<XKey>, low: Code, high: Code, clear: bool): XTable {
    map k | k in xte.Keys + ks :: if k in ks then AddRange(Entry(xte, k, low, high), low, high, clear) else xte[k]
  }

  lemma AddTwice(x: Xperms, low: Code, high: Code, clear: bool)
    ensures AddRange(AddRange(x, low, high, clear), low, high, clear) == AddRange(x, low, high, clear)
  {
    var span := if x.Driver? then Span(DriverOf(low), DriverOf(high)) else Span(FuncOf(low), FuncOf(high));
    assert (x.perms - span) - span == x.perms - span;
    assert (x.perms + span) + span == x.perms + span;
  }

  lemma XPatchTwice(xte: XTable, a: set<XKey>, b: set<XKey>, low: Code, high: Code, clear: bool)
    ensures XPatch(XPatch(xte, a, low, high, clear), b, low, high, clear) == XPatch(xte, a + b, low, high, clear)
  {
    var once := XPatch(xte, a, low, high, clear);
    var l, r := XPatch(once, b, low, high, clear), XPatch(xte, a + b, low, high, clear);
    assert l.Keys == r.Keys;
    forall k | k in l ensures l[k] == r[k] {
      if k in a && k in b { AddTwice(Entry(xte, k, low, high), low, high, clear); }
    }
  }

  lemma OneXKey(s: nat, t: nat, c: nat, kind: XKind)
    ensures XKeys({s}, {t}, {c}, kind) == {XKey(s, t, c, kind)}
  {}

  lemma XKeysGrow(ss: set<nat>, ts: set<nat>, cs: set<nat>, vs: set<nat>, kind: XKind)
    ensures XKeys(ss + vs, ts, cs, kind) == XKeys(ss, ts, cs, kind) + XKeys(vs, ts, cs, kind)
    ensures XKeys(ss, ts + vs, cs, kind) == XKeys(ss, ts, cs, kind) + XKeys(ss, vs, cs, kind)
    ensures XKeys(ss, ts, cs + vs, kind) == XKeys(ss, ts, cs, kind) + XKeys(ss, ts, vs, kind)
  {}

  lemma XPatchNone(xte: XTable, low: Code, high: Code, clear: bool)
    ensures XPatch(xte, {}, low, high, clear) == xte
  {}

  function ClassSet(p: Policy, ns: seq<Name>): set<nat> { set n, v | n in ns && v in ClassValues(p, n) :: v }

  lemma ClassSetGrows(p: Policy, ns: seq<Name>, i: nat)
    requires i < |ns|
    ensures ClassSet(p, ns[..i + 1]) == ClassSet(p, ns[..i]) + ClassValues(p, ns[i])
  {
    assert ns[..i + 1] == ns[..i] + [ns[i]];
  }

  lemma SameXNames(p: Policy, q: Policy, s: Name, t: Name, c: Name, kind: XKind)
    requires p.types == q.types && p.classes == q.classes
    ensures XKeys(TypeValues(p, s), TypeValues(p, t), ClassValues(p, c), kind) ==
            XKeys(TypeValues(q, s), TypeValues(q, t), ClassValues(q, c), kind)
  {}

  /** The meaning of a type 2 statement, `action { ss } { ts } { cs } ioctl range`. */
  function XMeaning(p: Policy, kind: XKind, ss: seq<Name>, ts: seq<Name>, cs: seq<Name>, low: Code,
                    high: Code): Policy {
    p.(xte := XPatch(p.xte, XKeys(TypeSet(p, ss), TypeSet(p, ts), ClassSet(p, cs), kind), low, high, false))
  }

  ghost predicate XTouches(p: Policy, kind: XKind, ss: seq<Name>, ts: seq<Name>, cs: seq<Name>, k: XKey) {
    && k.kind == kind
    && ListsType(p, ss, k.source) && ListsType(p, ts, k.target) && ListsClass(p, cs, k.cls)
  }

  /** Key by key and code by code.  A new entry permits the range, or the drivers it lies in; an
      existing one gains the drivers, or the functions of its own driver, whatever the range's. */
  lemma MeaningOfXStatement(p: Policy, kind: XKind, ss: seq<Name>, ts: seq<Name>, cs: seq<Name>, low: Code, high: Code,
                            k: XKey, code: Code)
    ensures var q := XMeaning(p, kind, ss, ts, cs, low, high);
      && q == p.(xte := q.xte)
      && (k in q.xte <==> k in p.xte || XTouches(p, kind, ss, ts, cs, k))
      && (k in q.xte ==>
            (Permitted(q.xte[k], code) <==>
              if !XTouches(p, kind, ss, ts, cs, k) then Permitted(p.xte[k], code)
              else if k !in p.xte then
                if DriverOf(low) == DriverOf(high) then low <= code <= high
                else DriverOf(low) <= DriverOf(code) <= DriverOf(high)
              else
                || Permitted(p.xte[k], code)
                || (if p.xte[k].Driver? then DriverOf(low) <= DriverOf(code) <= DriverOf(high)
                    else DriverOf(code) == p.xte[k].driver && FuncOf(low) <= FuncOf(code) <= FuncOf(high))))
      && (!XTouches(p, kind, ss, ts, cs, k) && k in p.xte ==> q.xte[k] == p.xte[k])
      && (XTouches(p, kind, ss, ts, cs, k) ==>
            (Covers(q.xte[k], low, high) <==> Expressible(Entry(p.xte, k, low, high), low, high)))
  {
    TouchedKeys(p, kind, ss, ts, cs, k);
    FreshRange(low, high, code);
    AddCovers(Entry(p.xte, k, low, high), low, high);
  }

  lemma TouchedKeys(p: Policy, kind: XKind, ss: seq<Name>, ts: seq<Name>, cs: seq<Name>, k: XKey)
    ensures XTouches(p, kind, ss, ts, cs, k) <==> k in XKeys(TypeSet(p, ss), TypeSet(p, ts), ClassSet(p, cs), kind)
  {
    TypeSetIs(p, ss, k.source);
    TypeSetIs(p, ts, k.target);
    forall n | n in cs ensures k.cls in ClassValues(p, n) <==> NamesClass(p, n, k.cls) { ClassValuesAre(p, n, k.cls); }
  }
}
