/** What the name lists of create, permissive and enforce amount to: when two lists do the same to a policy. */
module NameLists {
  import opened Wrappers
  import opened PolicyModel
  import opened PolicyRuns
  import opened StatementSyntax
  import opened Patcher

  /** The names of a list that are not known yet, each once, in order. */
  function NewNames(known: set<string>, ws: seq<string>): seq<string> {
    if ws == [] then []
    else
      var ns, w := NewNames(known, ws[..|ws| - 1]), ws[|ws| - 1];
      if w in known || w in ns then ns else ns + [w]
  }

  lemma {:induction false} NewNamesListed(known: set<string>, ws: seq<string>)
    ensures forall n :: n in NewNames(known, ws) ==> n in ws
  {
    if ws != [] { NewNamesListed(known, ws[..|ws| - 1]); }
  }

  lemma CommandsSnoc(a: NameAction, ws: seq<string>, w: string)
    requires Nameable(a, ws + [w])
    ensures Nameable(a, ws) && (a.Creating? ==> NameOf(w).Some?)
    ensures NameCommands(a, ws + [w]) == NameCommands(a, ws) + [NameCommand(a, NameOf(w))]
  {
    assert w in ws + [w] && forall x :: x in ws ==> x in ws + [w];
  }

  // ------------------------------------------------------------------ create

  /** `q` is `p` with the types `ns` created. */
  ghost predicate Created(p: Policy, ns: seq<string>, q: Policy) {
    && q.nprim == p.nprim + |ns|
    && (forall n :: n in q.types <==> n in p.types || n in ns)
    && (forall n :: n in p.types ==> n in q.types && q.types[n] == p.types[n])
    && (forall i :: 0 <= i < |ns| ==> ns[i] in q.types && q.types[ns[i]].value == p.nprim + 1 + i)
  }

  lemma CreatedOne(p: Policy, ns: seq<string>, q: Policy, w: string)
    requires InRange(q) && Created(p, ns, q)
    ensures if w in p.types.Keys || w in ns then Create(q, w) == q else Created(p, ns + [w], Create(q, w))
  {
    if w !in p.types.Keys && w !in ns { CreateDeclares(q, w); }
  }

  /** A list creates its new names, in order, and nothing else; names that are known make no difference. */
  lemma {:induction false} CreatesNew(p: Policy, ws: seq<string>)
    requires InRange(p) && Nameable(Creating, ws)
    ensures var ns := NewNames(p.types.Keys, ws);
      && Nameable(Creating, ns)
      && Created(p, ns, Run(p, NameCommands(Creating, ws)))
      && Run(p, NameCommands(Creating, ws)) == Run(p, NameCommands(Creating, ns))
  {
    NewNamesListed(p.types.Keys, ws);
    if ws != [] {
      var init, w := ws[..|ws| - 1], ws[|ws| - 1];
      assert init + [w] == ws;
      CommandsSnoc(Creating, init, w);
      CreatesNew(p, init);
      CreatesOneMore(p, init, w);
    }
  }

  lemma CreatesOneMore(p: Policy, init: seq<string>, w: string)
    requires InRange(p) && Nameable(Creating, init + [w]) && Nameable(Creating, init)
    requires var ns := NewNames(p.types.Keys, init);
      && Nameable(Creating, ns) && Created(p, ns, Run(p, NameCommands(Creating, init)))
      && Run(p, NameCommands(Creating, init)) == Run(p, NameCommands(Creating, ns))
    ensures var ns, q := NewNames(p.types.Keys, init), Run(p, NameCommands(Creating, init + [w]));
      var ns' := if w in p.types.Keys || w in ns then ns else ns + [w];
      Nameable(Creating, ns') && Created(p, ns', q) && q == Run(p, NameCommands(Creating, ns'))
  {
    var ns, q := NewNames(p.types.Keys, init), Run(p, NameCommands(Creating, init));
    CommandsSnoc(Creating, init, w);
    RunSnoc(p, NameCommands(Creating, init), CreateCmd(w));
    CreatedOne(p, ns, q, w);
    if w !in p.types.Keys && w !in ns {
      assert Nameable(Creating, ns + [w]);
      CommandsSnoc(Creating, ns, w);
      RunSnoc(p, NameCommands(Creating, ns), CreateCmd(w));
    }
  }

  lemma SameCreated(p: Policy, a: seq<string>, b: seq<string>, q: Policy)
    requires InRange(p) && Created(p, a, q) && Created(p, b, q)
    ensures a == b
  {
    forall i | 0 <= i < |a| ensures a[i] == b[i] {
      assert q.types[a[i]].value == p.nprim + 1 + i;
      assert a[i] !in p.types;
      assert a[i] in b;
      var j :| 0 <= j < |b| && b[j] == a[i];
      assert q.types[b[j]].value == p.nprim + 1 + j;
    }
  }

  // ------------------------------------------------------------------ permissive and enforce

  lemma NamesOfSnoc(ws: seq<string>, w: string)
    ensures NamesOf(ws + [w]) == NamesOf(ws) + [NameOf(w)]
  {}

  lemma TypeSetSnoc(p: Policy, ns: seq<Name>, n: Name)
    ensures TypeSet(p, ns + [n]) == TypeSet(p, ns) + TypeValues(p, n)
  {
    assert (ns + [n])[..|ns|] == ns;
    TypeSetGrows(p, ns + [n], |ns|);
    assert (ns + [n])[..|ns| + 1] == ns + [n];
  }

  function WithState(p: Policy, vs: set<nat>, on: bool): Policy {
    p.(permissive := if on then p.permissive + vs else p.permissive - vs)
  }

  lemma WithStateTwice(p: Policy, vs: set<nat>, n: Name, on: bool)
    ensures SetState(WithState(p, vs, on), n, on) == WithState(p, vs + TypeValues(p, n), on)
  {
    var us := TypeValues(p, n);
    assert (p.permissive + vs) + us == p.permissive + (vs + us);
    assert (p.permissive - vs) - us == p.permissive - (vs + us);
  }

  /** A list sets the state of exactly the types it resolves to. */
  lemma {:induction false} StatesAll(p: Policy, a: NameAction, ws: seq<string>)
    requires InRange(p) && !a.Creating?
    ensures Run(p, NameCommands(a, ws)) == WithState(p, TypeSet(p, NamesOf(ws)), a.Permitting?)
  {
    if ws == [] {
      assert p.permissive + {} == p.permissive - {} == p.permissive;
      assert TypeSet(p, NamesOf(ws)) == {};
    } else {
      var init, w := ws[..|ws| - 1], ws[|ws| - 1];
      assert init + [w] == ws;
      StatesAll(p, a, init);
      CommandsSnoc(a, init, w);
      RunSnoc(p, NameCommands(a, init), NameCommand(a, NameOf(w)));
      NamesOfSnoc(init, w);
      TypeSetSnoc(p, NamesOf(init), NameOf(w));
      WithStateTwice(p, TypeSet(p, NamesOf(init)), NameOf(w), a.Permitting?);
    }
  }

  // ------------------------------------------------------------------ when two lists do the same

  /** The lists have the same new names, or the same types whose state changes. */
  ghost predicate SameWork(p: Policy, a: NameAction, ws: seq<string>, us: seq<string>) {
    match a
    case Creating => NewNames(p.types.Keys, ws) == NewNames(p.types.Keys, us)
    case Permitting => TypeSet(p, NamesOf(ws)) - p.permissive == TypeSet(p, NamesOf(us)) - p.permissive
    case Enforcing => TypeSet(p, NamesOf(ws)) * p.permissive == TypeSet(p, NamesOf(us)) * p.permissive
  }

  lemma SetsAgree(s: set<nat>, a: set<nat>, b: set<nat>)
    ensures s + a == s + b <==> a - s == b - s
    ensures s - a == s - b <==> a * s == b * s
  {
    assert (s + a) - s == a - s && (s + b) - s == b - s && s + (a - s) == s + a && s + (b - s) == s + b;
    assert s - (s - a) == a * s && s - (s - b) == b * s && s - a * s == s - a && s - b * s == s - b;
  }

  /** Two lists have the same effect if and only if they do the same work. */
  lemma SameEffect(p: Policy, a: NameAction, ws: seq<string>, us: seq<string>)
    requires InRange(p) && Nameable(a, ws) && Nameable(a, us)
    ensures Run(p, NameCommands(a, ws)) == Run(p, NameCommands(a, us)) <==> SameWork(p, a, ws, us)
  {
    if a.Creating? {
      CreatesNew(p, ws);
      CreatesNew(p, us);
      var q := Run(p, NameCommands(a, ws));
      if q == Run(p, NameCommands(a, us)) {
        SameCreated(p, NewNames(p.types.Keys, ws), NewNames(p.types.Keys, us), q);
      }
    } else {
      StatesAll(p, a, ws);
      StatesAll(p, a, us);
      SetsAgree(p.permissive, TypeSet(p, NamesOf(ws)), TypeSet(p, NamesOf(us)));
    }
  }
}
