/** Each of the twelve action words, from the text of a statement to what it does to the policy. */
module StatementTexts {
  import opened Wrappers
  import opened PolicyModel
  import opened Ioctl
  import opened RangeText
  import opened StatementSyntax
  import opened PolicyRuns
  import opened Patcher
  import opened NameLists
  import opened StatementLoop

  /** An action word and its body. */
  function Statement(action: string, body: string): string { action + (" " + body) }

  /** The statement is read, accepted, and turns `p` into `q`. */
  ghost predicate Does(p: Policy, s: string, junk: Range, q: Policy)
    requires InRange(p)
  {
    Readable(s) && Effect(p, s, junk) == Some(q)
  }

  // ------------------------------------------------------------------ rules

  function One(w: string): Written { Written(Bare(w), false, false) }

  function RuleBody(s: Written, t: Written, c: string, q: Written): string { Text(AllTokens([s, t, One(c), q])) }

  lemma RuleItems(s: Written, t: Written, c: string, q: Written)
    requires Plain(s.item) && Plain(t.item) && PlainWord(c) && Plain(q.item)
    ensures var ws := [s, t, One(c), q];
      && (forall w :: w in ws ==> Plain(w.item)) && Fits(PATTERN1, Items(ws))
      && Items(ws) == [s.item, t.item, Bare(c), q.item]
  {
    PatternShapes([s.item, t.item, Bare(c), q.item]);
  }

  lemma {:induction false} RuleText(p: Policy, w: string, a: Action, s: Written, t: Written, c: string, q: Written,
                                    junk: Range)
    requires InRange(p) && FormOf(w) == RuleForm(a)
    requires Plain(s.item) && Plain(t.item) && PlainWord(c) && Plain(q.item)
    ensures Does(p, Statement(w, RuleBody(s, t, c, q)), junk,
                 Meaning(p, a, NamesOf(Words(s.item)), NamesOf(Words(t.item)), NameOf(c), NamesOf(Words(q.item))))
  {
    RuleItems(s, t, c, q);
    RuleAccepted(p, w, a, [s, t, One(c), q], junk);
  }

  /** allow, deny, auditallow and auditdeny with their sources, targets, class and permissions, brackets glued or
      spaced. */
  lemma {:induction false} RuleStatements(p: Policy, s: Written, t: Written, c: string, q: Written, junk: Range)
    requires InRange(p) && Plain(s.item) && Plain(t.item) && PlainWord(c) && Plain(q.item)
    ensures var body, ss, ts, qs :=
        RuleBody(s, t, c, q), NamesOf(Words(s.item)), NamesOf(Words(t.item)), NamesOf(Words(q.item));
      && Does(p, Statement("allow", body), junk, Meaning(p, Allow, ss, ts, NameOf(c), qs))
      && Does(p, Statement("deny", body), junk, Meaning(p, Deny, ss, ts, NameOf(c), qs))
      && Does(p, Statement("auditallow", body), junk, Meaning(p, AuditAllowing, ss, ts, NameOf(c), qs))
      && Does(p, Statement("auditdeny", body), junk, Meaning(p, AuditDenying, ss, ts, NameOf(c), qs))
  {
    RuleForms();
    RuleText(p, "allow", Allow, s, t, c, q, junk);
    RuleText(p, "deny", Deny, s, t, c, q, junk);
    RuleText(p, "auditallow", AuditAllowing, s, t, c, q, junk);
    RuleText(p, "auditdeny", AuditDenying, s, t, c, q, junk);
  }

  lemma RuleForms()
    ensures FormOf("allow") == RuleForm(Allow) && FormOf("deny") == RuleForm(Deny)
    ensures FormOf("auditallow") == RuleForm(AuditAllowing) && FormOf("auditdeny") == RuleForm(AuditDenying)
  {}

  /** The same from text to bits: allow sets, and deny clears, exactly the named bits of the access vectors. */
  lemma {:induction false} AllowAndDeny(p: Policy, s: Written, t: Written, c: string, q: Written, junk: Range, k: Key,
                                        b: Perm)
    requires InRange(p) && Plain(s.item) && Plain(t.item) && PlainWord(c) && Plain(q.item)
    ensures var allow, deny := Statement("allow", RuleBody(s, t, c, q)), Statement("deny", RuleBody(s, t, c, q));
      && Readable(allow) && Effect(p, allow, junk).Some? && Readable(deny) && Effect(p, deny, junk).Some?
      && (Bit(Effect(p, allow, junk).value.te, k, b) <==> Bit(p.te, k, b) || Named(p, s, t, c, q, k, b))
      && (Bit(Effect(p, deny, junk).value.te, k, b) <==> Bit(p.te, k, b) && !Named(p, s, t, c, q, k, b))
  {
    RuleStatements(p, s, t, c, q, junk);
    var ss, ts, qs := NamesOf(Words(s.item)), NamesOf(Words(t.item)), NamesOf(Words(q.item));
    MeaningOfStatement(p, Allow, ss, ts, NameOf(c), qs, k, b);
    MeaningOfStatement(p, Deny, ss, ts, NameOf(c), qs, k, b);
  }

  /** The statement names bit `b` of access vector `k`. */
  ghost predicate Named(p: Policy, s: Written, t: Written, c: string, q: Written, k: Key, b: Perm) {
    && k.kind == Allowed
    && ListsType(p, NamesOf(Words(s.item)), k.source) && ListsType(p, NamesOf(Words(t.item)), k.target)
    && NamesClass(p, NameOf(c), k.cls) && ListsPerm(p, NameOf(c), NamesOf(Words(q.item)), b)
  }

  // ------------------------------------------------------------------ extended permissions

  function XRuleBody(s: Written, t: Written, c: Written, word: string, range: string): string {
    Text(AllTokens([s, t, c, One(word), One(range)]))
  }

  /** The range that a word stands for. */
  function RangeOf(range: string, junk: Range): Range {
    if range != "" && range[0] == '*' then Range(0, 0xFFFF) else Decode(range, junk)
  }

  lemma XRuleItems(s: Written, t: Written, c: Written, word: string, range: string)
    requires Plain(s.item) && Plain(t.item) && Plain(c.item) && PlainWord(word) && PlainWord(range)
    ensures var ws := [s, t, c, One(word), One(range)];
      && (forall w :: w in ws ==> Plain(w.item)) && Fits(PATTERN5, Items(ws))
      && Items(ws) == [s.item, t.item, c.item, Bare(word), Bare(range)]
  {
    PatternShapes([s.item, t.item, c.item, Bare(word), Bare(range)]);
  }

  /** The effect of a body that parses. */
  lemma XRuleParsed(p: Policy, kind: XKind, body: seq<Glyph>, s: Item, t: Item, c: Item, word: string, range: string,
                    junk: Range)
    requires Parse(PATTERN5, body) == Some([s, t, c, Bare(word), Bare(range)])
    ensures var r := RangeOf(range, junk);
      XRuleEffect(p, kind, junk, body) ==
        Some(XMeaning(p, kind, NamesOf(Words(s)), NamesOf(Words(t)), NamesOf(Words(c)), r.low, r.high))
  {
    Wildcards(range);
  }

  lemma XRuleRead(p: Policy, w: string, kind: XKind, body: string, junk: Range)
    requires InRange(p) && FormOf(w) == XRuleForm(kind)
    ensures Readable(Statement(w, body))
    ensures Effect(p, Statement(w, body), junk) == XRuleEffect(p, kind, junk, Glyphs(body))
  {
    PlainXRule(w);
    ActionAndBody(w, body);
  }

  lemma {:induction false} XRuleText(p: Policy, w: string, kind: XKind, s: Written, t: Written, c: Written,
                                     word: string,
                                     range: string, junk: Range)
    requires InRange(p) && FormOf(w) == XRuleForm(kind)
    requires Plain(s.item) && Plain(t.item) && Plain(c.item) && PlainWord(word) && PlainWord(range)
    ensures var r := RangeOf(range, junk);
      Does(p, Statement(w, XRuleBody(s, t, c, word, range)), junk,
           XMeaning(p, kind, NamesOf(Words(s.item)), NamesOf(Words(t.item)), NamesOf(Words(c.item)), r.low, r.high))
  {
    var body := XRuleBody(s, t, c, word, range);
    XRuleItems(s, t, c, word, range);
    SpacingIrrelevant(PATTERN5, [s, t, c, One(word), One(range)]);
    XRuleRead(p, w, kind, body, junk);
    XRuleParsed(p, kind, Glyphs(body), s.item, t.item, c.item, word, range, junk);
  }

  /** allowxperm, auditallowxperm and dontauditxperm; the word before the range is not looked at. */
  lemma {:induction false} XRuleStatements(p: Policy, s: Written, t: Written, c: Written, word: string, range: string,
                                           junk: Range)
    requires InRange(p) && Plain(s.item) && Plain(t.item) && Plain(c.item) && PlainWord(word) && PlainWord(range)
    ensures var body, r := XRuleBody(s, t, c, word, range), RangeOf(range, junk);
      var ss, ts, cs := NamesOf(Words(s.item)), NamesOf(Words(t.item)), NamesOf(Words(c.item));
      && Does(p, Statement("allowxperm", body), junk, XMeaning(p, XAllowed, ss, ts, cs, r.low, r.high))
      && Does(p, Statement("auditallowxperm", body), junk, XMeaning(p, XAuditAllow, ss, ts, cs, r.low, r.high))
      && Does(p, Statement("dontauditxperm", body), junk, XMeaning(p, XDontAudit, ss, ts, cs, r.low, r.high))
  {
    XRuleForms();
    XRuleText(p, "allowxperm", XAllowed, s, t, c, word, range, junk);
    XRuleText(p, "auditallowxperm", XAuditAllow, s, t, c, word, range, junk);
    XRuleText(p, "dontauditxperm", XDontAudit, s, t, c, word, range, junk);
  }

  lemma XRuleForms()
    ensures FormOf("allowxperm") == XRuleForm(XAllowed)
    ensures FormOf("auditallowxperm") == XRuleForm(XAuditAllow)
    ensures FormOf("dontauditxperm") == XRuleForm(XDontAudit)
  {}

  // ------------------------------------------------------------------ attradd

  lemma AttrItems(x: Written, a: Written)
    requires Plain(x.item) && Plain(a.item)
    ensures var ws := [x, a];
      (forall w :: w in ws ==> Plain(w.item)) && Items(ws) == [x.item, a.item] && Fits(PATTERN2, Items(ws))
  {
    PatternShapes([x.item, a.item]);
  }

  ghost predicate NoWildcards(ws: seq<string>) { forall w :: w in ws ==> w != "" && w[0] != '*' }

  /** attradd: every listed type joins every listed attribute. */
  lemma {:induction false} AttrStatement(p: Policy, x: Written, a: Written, junk: Range)
    requires InRange(p) && Plain(x.item) && Plain(a.item) && NoWildcards(Words(x.item)) && NoWildcards(Words(a.item))
    ensures Does(p, Statement("attradd", Text(AllTokens([x, a]))), junk,
                 Run(p, AttrCommands(Words(x.item), Words(a.item))))
  {
    var body := Text(AllTokens([x, a]));
    AttrItems(x, a);
    AttraddIsPlain();
    ActionAndBody("attradd", body);
    SpacingIrrelevant(PATTERN2, [x, a]);
    forall w | w in Words(x.item) + Words(a.item) ensures NameOf(w).Some? { Wildcards(w); }
    AttrSupported(body, x.item, a.item);
  }

  lemma AttraddIsPlain()
    ensures FormOf("attradd") == AttrForm && Free(BLANK, "attradd")
  {}

  lemma AttrSupported(body: string, x: Item, a: Item)
    requires Parse(PATTERN2, Glyphs(body)) == Some([x, a])
    requires forall w :: w in Words(x) + Words(a) ==> NameOf(w).Some?
    ensures Supported(AttrForm, body)
  {
    forall i, w | 0 <= i < 2 && w in Words([x, a][i]) ensures NameOf(w).Some? { assert w in Words(x) + Words(a); }
  }

  // ------------------------------------------------------------------ create, permissive and enforce

  /** Names in any mixture of blanks and brackets. */
  ghost predicate NameList(lead: string, ws: seq<string>, gaps: seq<string>) {
    Gap(BRACKETS, lead) && WellSpaced(BRACKETS, ws, gaps)
  }

  lemma {:induction false} NameText(p: Policy, w: string, a: NameAction, lead: string, ws: seq<string>,
                                    gaps: seq<string>, junk: Range)
    requires InRange(p) && FormOf(w) == NameForm(a) && NameList(lead, ws, gaps) && Nameable(a, ws)
    ensures Does(p, Statement(w, lead + Spaced(ws, gaps)), junk, Run(p, NameCommands(a, ws)))
  {
    PlainName(w);
    ActionAndBody(w, lead + Spaced(ws, gaps));
    TokensOfGaps(BRACKETS, lead, ws, gaps);
  }

  lemma NameForms()
    ensures FormOf("create") == NameForm(Creating)
    ensures FormOf("permissive") == NameForm(Permitting) && FormOf("enforce") == NameForm(Enforcing)
  {}

  /** create: the listed names that are new become types, in order. */
  lemma {:induction false} CreateStatement(p: Policy, lead: string, ws: seq<string>, gaps: seq<string>, junk: Range)
    requires InRange(p) && NameList(lead, ws, gaps) && NoWildcards(ws)
    ensures var s := Statement("create", lead + Spaced(ws, gaps));
      Readable(s) && Effect(p, s, junk).Some? && Created(p, NewNames(p.types.Keys, ws), Effect(p, s, junk).value)
  {
    forall w | w in ws ensures NameOf(w).Some? { Wildcards(w); }
    NameForms();
    NameText(p, "create", Creating, lead, ws, gaps, junk);
    CreatesNew(p, ws);
  }

  /** permissive and enforce: exactly the listed types become permissive, or stop being it. */
  lemma {:induction false} StateStatements(p: Policy, lead: string, ws: seq<string>, gaps: seq<string>, junk: Range,
                                           v: nat)
    requires InRange(p) && NameList(lead, ws, gaps)
    ensures var list := lead + Spaced(ws, gaps);
      var on, off := Statement("permissive", list), Statement("enforce", list);
      && Readable(on) && Effect(p, on, junk).Some? && Readable(off) && Effect(p, off, junk).Some?
      && var q, r := Effect(p, on, junk).value, Effect(p, off, junk).value;
         && q == p.(permissive := q.permissive) && r == p.(permissive := r.permissive)
         && (v in q.permissive <==> v in p.permissive || ListsType(p, NamesOf(ws), v))
         && (v in r.permissive <==> v in p.permissive && !ListsType(p, NamesOf(ws), v))
  {
    NameForms();
    NameText(p, "permissive", Permitting, lead, ws, gaps, junk);
    NameText(p, "enforce", Enforcing, lead, ws, gaps, junk);
    StatesAll(p, Permitting, ws);
    StatesAll(p, Enforcing, ws);
    TypeSetIs(p, NamesOf(ws), v);
  }

  // ------------------------------------------------------------------ typetrans

  /** typetrans with four words. */
  lemma {:induction false} TransStatement(p: Policy, s: string, t: string, c: string, d: string, junk: Range)
    requires InRange(p) && IsToken(BLANK, s) && IsToken(BLANK, t) && IsToken(BLANK, c) && IsToken(BLANK, d)
    ensures Does(p, Statement("typetrans", Text([s, t, c, d])), junk, AddTransition(p, s, t, c, d))
  {
    TypetransIsPlain();
    ActionAndBody("typetrans", Text([s, t, c, d]));
    TokensOfText([s, t, c, d]);
  }

  lemma TypetransIsPlain()
    ensures FormOf("typetrans") == TransForm && Free(BLANK, "typetrans")
  {}

  // ------------------------------------------------------------------ what is rejected

  /** The body is no list of items of this shape. */
  ghost predicate Malformed(shape: Shape, body: string) { forall items :: !Derives(shape, Glyphs(body), items) }

  lemma MalformedFails(shape: Shape, body: string)
    requires Malformed(shape, body)
    ensures Parse(shape, Glyphs(body)).None?
  {
    if Parse(shape, Glyphs(body)).Some? {
      var items := Parse(shape, Glyphs(body)).value;
      ParseExact(shape, Glyphs(body), items);
    }
  }

  lemma FormRejects(p: Policy, f: Form, body: string, junk: Range)
    requires InRange(p) && Supported(f, body)
    ensures f.RuleForm? && Malformed(PATTERN1, body) ==> FormEffect(p, f, body, junk).None?
    ensures f.XRuleForm? && Malformed(PATTERN5, body) ==> FormEffect(p, f, body, junk).None?
    ensures f.AttrForm? && Malformed(PATTERN2, body) ==> FormEffect(p, f, body, junk).None?
    ensures f.TransForm? && |Tokens(BLANK, body)| !in {4, 5} ==> FormEffect(p, f, body, junk).None?
  {
    if Malformed(PATTERN1, body) { MalformedFails(PATTERN1, body); }
    if Malformed(PATTERN2, body) { MalformedFails(PATTERN2, body); }
    if Malformed(PATTERN5, body) { MalformedFails(PATTERN5, body); }
  }

  lemma WordForms(w: string)
    ensures w in {"allow", "deny", "auditallow", "auditdeny"} ==> FormOf(w).RuleForm?
    ensures w in {"allowxperm", "auditallowxperm", "dontauditxperm"} ==> FormOf(w).XRuleForm?
    ensures w == "attradd" ==> FormOf(w).AttrForm?
    ensures w == "typetrans" ==> FormOf(w).TransForm?
  {}

  /** A body of the wrong shape is rejected, and so is a typetrans without four or five words. */
  lemma {:induction false} Rejected(p: Policy, w: string, body: string, junk: Range)
    requires InRange(p) && w != "" && Free(BLANK, w) && Readable(Statement(w, body))
    ensures w in {"allow", "deny", "auditallow", "auditdeny"} && Malformed(PATTERN1, body) ==>
      Effect(p, Statement(w, body), junk).None?
    ensures w in {"allowxperm", "auditallowxperm", "dontauditxperm"} && Malformed(PATTERN5, body) ==>
      Effect(p, Statement(w, body), junk).None?
    ensures w == "attradd" && Malformed(PATTERN2, body) ==> Effect(p, Statement(w, body), junk).None?
    ensures w == "typetrans" && |Tokens(BLANK, body)| !in {4, 5} ==> Effect(p, Statement(w, body), junk).None?
  {
    ActionAndBody(w, body);
    WordForms(w);
    if FormOf(w) != NoForm { FormRejects(p, FormOf(w), body, junk); }
  }

  /** No other word is an action: everything else is rejected. */
  lemma OtherWords(p: Policy, s: string, junk: Range)
    requires InRange(p) && Readable(s)
    requires FirstWord(s) !in {"allow", "deny", "auditallow", "auditdeny", "attradd", "create", "permissive", "enforce",
                               "typetrans", "allowxperm", "auditallowxperm", "dontauditxperm"}
    ensures Effect(p, s, junk).None?
  {}
}
