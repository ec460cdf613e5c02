/** The statement loop of magiskpolicy_main (jni/magiskpolicy/magiskpolicy.c): the first word of a statement
    selects its pattern, and the body handed to the parser starts one character behind where that word
    would end if it stood at the very beginning. */
module StatementLoop {
  import opened Wrappers
  import opened PolicyModel
  import opened Ioctl
  import opened RangeText
  import opened StatementSyntax
  import opened StatementParser
  import opened CStrings
  import opened PolicyRuns
  import opened Patcher
  import opened NameLists
  import PolicyDb

  datatype Form =
    | RuleForm(a: Action)
    | XRuleForm(kind: XKind)
    | AttrForm
    | NameForm(action: NameAction)
    | TransForm
    | NoForm

  function FormOf(word: string): Form {
    if word == "allow" then RuleForm(Allow)
    else if word == "deny" then RuleForm(Deny)
    else if word == "auditallow" then RuleForm(AuditAllowing)
    else if word == "auditdeny" then RuleForm(AuditDenying)
    else if word == "attradd" then AttrForm
    else if word == "create" then NameForm(Creating)
    else if word == "permissive" then NameForm(Permitting)
    else if word == "enforce" then NameForm(Enforcing)
    else if word == "typetrans" then TransForm
    else if word == "allowxperm" then XRuleForm(XAllowed)
    else if word == "auditallowxperm" then XRuleForm(XAuditAllow)
    else if word == "dontauditxperm" then XRuleForm(XDontAudit)
    else NoForm
  }

  function Blanks(s: string): (n: nat)
    ensures n <= |s|
  {
    if s != "" && s[0] == ' ' then 1 + Blanks(s[1..]) else 0
  }

  /** The first word, without the blanks before it. */
  function FirstWord(s: string): string { s[Blanks(s)..][..WordLength(BLANK, s[Blanks(s)..])] }

  function FormIn(s: string): Form { FormOf(FirstWord(s)) }

  /** There is a first word, and if it is an action, the place where the body is looked for lies inside
      the string. */
  predicate HasBody(s: string) { FirstWord(s) != "" && (FormIn(s) != NoForm ==> |FirstWord(s)| < |s|) }

  /** With a NUL at `b + n`, what C reads from `n + 1` on. */
  function Behind(s: string, b: nat, n: nat): string
    requires b + n <= |s| && n < |s|
  {
    if b == 0 then s[n + 1..] else s[n + 1..b + n]
  }

  /** The text that the pattern parsers get to see: strtok_r has put a NUL behind the first word. */
  function BodyOf(s: string): string
    requires |FirstWord(s)| < |s|
  {
    Behind(s, Blanks(s), |FirstWord(s)|)
  }

  /** attradd and create have no wildcards, and the file names of typetrans are not modelled. */
  ghost predicate Supported(f: Form, body: string) {
    match f
    case AttrForm =>
      Parse(PATTERN2, Glyphs(body)).Some? ==>
        forall i, w :: 0 <= i < 2 && w in Words(Parse(PATTERN2, Glyphs(body)).value[i]) ==> NameOf(w).Some?
    case NameForm(a) => Nameable(a, Tokens(BRACKETS, body))
    case TransForm => |Tokens(BLANK, body)| != 5
    case _ => true
  }

  ghost predicate Readable(s: string) { HasBody(s) && (FormIn(s) != NoForm ==> Supported(FormIn(s), BodyOf(s))) }

  /** What the body of a type 1 statement makes of a policy; a rejected one has no effect. */
  ghost function RuleEffect(p: Policy, a: Action, body: seq<Glyph>): Option<Policy> {
    if Parse(PATTERN1, body).None? then None
    else
      var items := Parse(PATTERN1, body).value;
      Some(Meaning(p, a, NamesOf(Words(items[0])), NamesOf(Words(items[1])),
                   NameOf(items[2].word), NamesOf(Words(items[3]))))
  }

  /** The same for an extended permission statement. */
  ghost function XRuleEffect(p: Policy, kind: XKind, junk: Range, body: seq<Glyph>): Option<Policy> {
    if Parse(PATTERN5, body).None? then None
    else
      var items := Parse(PATTERN5, body).value;
      var r := if NameOf(items[4].word).None? then FULL_RANGE else Decode(items[4].word, junk);
      Some(XMeaning(p, kind, NamesOf(Words(items[0])), NamesOf(Words(items[1])), NamesOf(Words(items[2])),
                    r.low, r.high))
  }

  /** The same for attradd. */
  ghost function AttrEffect(p: Policy, body: seq<Glyph>): Option<Policy>
    requires InRange(p)
  {
    if Parse(PATTERN2, body).None? then None
    else
      var items := Parse(PATTERN2, body).value;
      Some(Run(p, AttrCommands(Words(items[0]), Words(items[1]))))
  }

  /** The same for create, permissive and enforce. */
  ghost function NameEffect(p: Policy, a: NameAction, ws: seq<string>): Option<Policy>
    requires InRange(p) && Nameable(a, ws)
  {
    Some(Run(p, NameCommands(a, ws)))
  }

  /** The same for typetrans. */
  ghost function TransEffect(p: Policy, ws: seq<string>): Option<Policy> {
    if |ws| == 4 then Some(AddTransition(p, ws[0], ws[1], ws[2], ws[3])) else None
  }

  ghost function FormEffect(p: Policy, f: Form, body: string, junk: Range): Option<Policy>
    requires InRange(p) && Supported(f, body)
  {
    match f
    case RuleForm(a) => RuleEffect(p, a, Glyphs(body))
    case XRuleForm(kind) => XRuleEffect(p, kind, junk, Glyphs(body))
    case AttrForm => AttrEffect(p, Glyphs(body))
    case NameForm(a) => NameEffect(p, a, Tokens(BRACKETS, body))
    case TransForm => TransEffect(p, Tokens(BLANK, body))
    case NoForm => None
  }

  ghost function Effect(p: Policy, s: string, junk: Range): Option<Policy>
    requires InRange(p) && Readable(s)
  {
    if FormIn(s) == NoForm then None else FormEffect(p, FormIn(s), BodyOf(s), junk)
  }

  lemma {:induction false} BlanksAre(s: string)
    ensures forall i :: 0 <= i < Blanks(s) ==> s[i] == ' '
    ensures Blanks(s) < |s| ==> s[Blanks(s)] != ' '
  {
    if s != "" && s[0] == ' ' {
      BlanksAre(s[1..]);
      assert forall i :: 0 < i < Blanks(s) ==> s[i] == s[1..][i - 1];
    }
  }

  lemma BlankAt(s: string, i: nat)
    requires i <= Blanks(s) && i < |s|
    ensures s[i] == ' ' <==> i < Blanks(s)
  {
    BlanksAre(s);
  }

  method SkipBlanks(buf: array<char>, ghost s: string) returns (tok: nat)
    requires CString(buf[..], 0, s)
    ensures tok == Blanks(s) && CString(buf[..], tok, s[tok..])
  {
    tok := 0;
    CStringIndex(buf[..], 0, s, 0);
    while buf[tok] == ' '
      invariant tok <= Blanks(s) && tok < buf.Length
      invariant buf[tok] == if tok < |s| then s[tok] else NUL
      decreases |s| - tok
    {
      BlankAt(s, tok);
      tok := tok + 1;
      CStringIndex(buf[..], 0, s, tok);
    }
    if tok < |s| { BlankAt(s, tok); }
    CStringSuffix(buf[..], 0, s, tok);
  }

  /** strtok_r on the whole statement: where the first word is, and its length. */
  method CutFirstWord(buf: array<char>, ghost s: string) returns (tok: nat, len: nat)
    requires CString(buf[..], 0, s) && FirstWord(s) != ""
    modifies buf
    ensures len == |FirstWord(s)|
    ensures CString(buf[..], tok, FirstWord(s)) && (len < |s| ==> CString(buf[..], len + 1, BodyOf(s)))
  {
    tok := SkipBlanks(buf, s);
    var end := FindEnd(buf, BLANK, tok, s[tok..]);
    len := end - tok;
    if buf[end] != NUL {
      Cut(buf, 0, end, s);
    } else {
      assert s[..end] == s;
    }
    MiddleStrings(buf[..], s, tok, len);
  }

  /** The string cut at `b + n`, read from `b` and from `n + 1`. */
  lemma MiddleStrings(mem: string, s: string, b: nat, n: nat)
    requires b + n <= |s| && CString(mem, 0, s[..b + n])
    requires b + n < |s| ==> CString(mem, b + n + 1, s[b + n + 1..])
    ensures CString(mem, b, s[b..][..n])
    ensures n < |s| ==> CString(mem, n + 1, Behind(s, b, n))
  {
    SuffixOfPrefix(s, b, b + n);
    CStringSuffix(mem, 0, s[..b + n], b);
    if b > 0 {
      SuffixOfPrefix(s, n + 1, b + n);
      CStringSuffix(mem, 0, s[..b + n], n + 1);
    }
  }

  /** One round of the loop. */
  method RunStatement(db: PolicyDb.Db, buf: array<char>, junk: Range, ghost s: string) returns (ok: bool)
    requires CString(buf[..], 0, s) && Readable(s) && InRange(db.View())
    modifies db, buf
    ensures ok <==> Effect(old(db.View()), s, junk).Some?
    ensures db.View() == Effect(old(db.View()), s, junk).GetOr(old(db.View()))
  {
    var tok, len := CutFirstWord(buf, s);
    var word := ReadString(buf, tok, FirstWord(s));
    var form := FormOf(word);
    if form == NoForm { return false; }
    ok := RunForm(db, form, buf, len + 1, junk, BodyOf(s));
  }

  /** The parser that the action selects. */
  method RunForm(db: PolicyDb.Db, form: Form, buf: array<char>, start: nat, junk: Range, ghost body: string)
    returns (ok: bool)
    requires CString(buf[..], start, body) && form != NoForm && Supported(form, body) && InRange(db.View())
    modifies db, buf
    ensures ok <==> FormEffect(old(db.View()), form, body, junk).Some?
    ensures db.View() == FormEffect(old(db.View()), form, body, junk).GetOr(old(db.View()))
  {
    ok := true;
    match form {
      case RuleForm(a) => ok := ParsePattern1(db, a, buf, start, body);
      case XRuleForm(kind) => ok := ParsePattern5(db, kind, buf, start, junk, body);
      case AttrForm => ok := ParsePattern2(db, buf, start, body);
      case NameForm(a) => ParsePattern3(db, a, buf, start, body);
      case TransForm => ok := ParsePattern4(db, buf, start, body);
    }
  }

  lemma RuleEffectValid(p: Policy, a: Action, body: seq<Glyph>)
    requires Valid(p) && RuleEffect(p, a, body).Some?
    ensures Valid(RuleEffect(p, a, body).value)
  {
    var items := Parse(PATTERN1, body).value;
    RuleValid(p, a, NamesOf(Words(items[0])), NamesOf(Words(items[1])),
              NameOf(items[2].word), NamesOf(Words(items[3])));
  }

  lemma XRuleEffectValid(p: Policy, kind: XKind, junk: Range, body: seq<Glyph>)
    requires Valid(p) && XRuleEffect(p, kind, junk, body).Some?
    ensures Valid(XRuleEffect(p, kind, junk, body).value)
  {
    var items := Parse(PATTERN5, body).value;
    var r := if NameOf(items[4].word).None? then FULL_RANGE else Decode(items[4].word, junk);
    XRuleValid(p, kind, NamesOf(Words(items[0])), NamesOf(Words(items[1])), NamesOf(Words(items[2])), r.low, r.high);
  }

  /** Accepted or not, a statement keeps what every run keeps. */
  lemma EffectValid(p: Policy, s: string, junk: Range)
    requires Valid(p) && Readable(s) && Effect(p, s, junk).Some?
    ensures Valid(Effect(p, s, junk).value)
  {
    var body := BodyOf(s);
    match FormIn(s)
    case RuleForm(a) => RuleEffectValid(p, a, Glyphs(body));
    case XRuleForm(kind) => XRuleEffectValid(p, kind, junk, Glyphs(body));
    case AttrForm =>
      var items := Parse(PATTERN2, Glyphs(body)).value;
      RunValid(p, AttrCommands(Words(items[0]), Words(items[1])));
    case NameForm(a) => RunValid(p, NameCommands(a, Tokens(BRACKETS, body)));
    case TransForm =>
      var ws := Tokens(BLANK, body);
      TransitionValid(p, ws[0], ws[1], ws[2], ws[3]);
  }

  /** What a list of statements makes of a policy: rejected ones are skipped. */
  ghost function EffectAll(p: Policy, ss: seq<string>, junk: Range): Policy
    requires Valid(p) && forall s :: s in ss ==> Readable(s)
    decreases |ss|
  {
    if ss == [] then p
    else
      assert ss[0] in ss;
      var r := Effect(p, ss[0], junk);
      if r.None? then EffectAll(p, ss[1..], junk)
      else
        EffectValid(p, ss[0], junk);
        EffectAll(r.value, ss[1..], junk)
  }

  /** Some statement of the list is rejected. */
  ghost predicate SomeRejected(p: Policy, ss: seq<string>, junk: Range)
    requires Valid(p) && forall s :: s in ss ==> Readable(s)
    decreases |ss|
  {
    ss != [] &&
      (assert ss[0] in ss;
       var r := Effect(p, ss[0], junk);
       r.None? || (EffectValid(p, ss[0], junk); SomeRejected(r.value, ss[1..], junk)))
  }

  lemma EffectAllStep(p: Policy, ss: seq<string>, i: nat, junk: Range)
    requires Valid(p) && i < |ss| && forall s :: s in ss ==> Readable(s)
    ensures Readable(ss[i])
    ensures var q := Effect(p, ss[i], junk).GetOr(p);
      Valid(q) && EffectAll(p, ss[i..], junk) == EffectAll(q, ss[i + 1..], junk)
    ensures SomeRejected(p, ss[i..], junk) <==>
      Effect(p, ss[i], junk).None? || SomeRejected(Effect(p, ss[i], junk).value, ss[i + 1..], junk)
  {
    assert ss[i] in ss && ss[i..][0] == ss[i] && ss[i..][1..] == ss[i + 1..];
    if Effect(p, ss[i], junk).Some? { EffectValid(p, ss[i], junk); }
  }

  /** The whole loop: every statement in its own buffer, in order. */
  method RunStatements(db: PolicyDb.Db, bufs: seq<array<char>>, junk: Range, ghost ss: seq<string>)
    returns (syntaxError: bool)
    requires Valid(db.View()) && |bufs| == |ss|
    requires forall i, j :: 0 <= i < j < |bufs| ==> bufs[i] != bufs[j]
    requires forall i :: 0 <= i < |bufs| ==> CString(bufs[i][..], 0, ss[i])
    requires forall s :: s in ss ==> Readable(s)
    modifies db, set b | b in bufs
    ensures Valid(db.View()) && db.View() == EffectAll(old(db.View()), ss, junk)
    ensures syntaxError <==> SomeRejected(old(db.View()), ss, junk)
  {
    syntaxError := false;
    assert ss[0..] == ss;
    for i := 0 to |bufs|
      invariant Valid(db.View())
      invariant SomeRejected(old(db.View()), ss, junk) <==> syntaxError || SomeRejected(db.View(), ss[i..], junk)
      invariant EffectAll(old(db.View()), ss, junk) == EffectAll(db.View(), ss[i..], junk)
      invariant forall k :: i <= k < |bufs| ==> CString(bufs[k][..], 0, ss[k])
    {
      EffectAllStep(db.View(), ss, i, junk);
      assert ss[i] in ss;
      label before:
      var ok := RunStatement(db, bufs[i], junk, ss[i]);
      forall k | i + 1 <= k < |bufs| ensures CString(bufs[k][..], 0, ss[k]) {
        assert bufs[k] != bufs[i];
        assert bufs[k][..] == old@before(bufs[k][..]);
      }
      if !ok { syntaxError := true; }
    }
  }

  /** One statement after the other: an accepted one has its effect, a rejected one none, and the rest goes on
      either way. */
  lemma {:induction false} EffectAllAppend(p: Policy, ss: seq<string>, s: string, junk: Range)
    requires Valid(p) && (forall t :: t in ss ==> Readable(t)) && Readable(s)
    ensures EffectAll(p, [], junk) == p && !SomeRejected(p, [], junk)
    ensures forall t :: t in ss + [s] ==> Readable(t)
    ensures Valid(EffectAll(p, ss, junk))
    ensures EffectAll(p, ss + [s], junk) ==
      var q := EffectAll(p, ss, junk); if Effect(q, s, junk).Some? then Effect(q, s, junk).value else q
    ensures SomeRejected(p, ss + [s], junk) <==>
      SomeRejected(p, ss, junk) || Effect(EffectAll(p, ss, junk), s, junk).None?
    decreases |ss|
  {
    if ss == [] {
      EffectAllStep(p, [s], 0, junk);
      assert [s][0..] == [s] && [s][1..] == [] && ss + [s] == [s];
    } else {
      EffectAllStep(p, ss, 0, junk);
      EffectAllStep(p, ss + [s], 0, junk);
      TailOfSum(ss, [s]);
      assert ss[0..] == ss && (ss + [s])[0..] == ss + [s];
      EffectAllAppend(Effect(p, ss[0], junk).GetOr(p), ss[1..], s, junk);
    }
  }

  // ------------------------------------------------------------------ a blank before the action

  lemma {:induction false} TokensAfterBlanks(ds: set<char>, s: string, n: nat)
    requires n <= |s| && ' ' in ds && forall i :: 0 <= i < n ==> s[i] == ' '
    ensures Tokens(ds, s) == Tokens(ds, s[n..])
    decreases n
  {
    if n > 0 {
      TokensAfterBlanks(ds, s[1..], n - 1);
      assert s[1..][n - 1..] == s[n..];
    }
  }

  lemma OneWord(ds: set<char>, t: string)
    requires Free(ds, t)
    ensures Tokens(ds, t) == if t == "" then [] else [t]
  {
    if t != "" {
      WordLengthAppend(ds, t, "");
      assert t + "" == t && t[..|t|] == t && t[|t|..] == "";
      assert t[0] in t;
    }
  }

  /** What is left of an action word for the parser when `b` blanks precede it. */
  function Leftover(w: string, b: nat): seq<string> {
    if b <= 1 then [] else if b <= |w| then [w[|w| + 1 - b..]] else [w]
  }

  /** Blanks and the end of a word, from position `k` on. */
  lemma EndOfWord(ds: set<char>, w: string, blanks: string, k: nat)
    requires ' ' in ds && Free(ds, w) && k <= |blanks| + |w| && forall i :: 0 <= i < |blanks| ==> blanks[i] == ' '
    ensures var end := if k < |blanks| then w else w[k - |blanks|..];
      Tokens(ds, (blanks + w)[k..]) == if end == "" then [] else [end]
  {
    var body := (blanks + w)[k..];
    if k < |blanks| {
      TokensAfterBlanks(ds, body, |blanks| - k);
      assert body[|blanks| - k..] == w;
      OneWord(ds, w);
    } else {
      assert body == w[k - |blanks|..];
      assert forall c :: c in body ==> c in w;
      OneWord(ds, body);
    }
  }

  lemma PlainRule(w: string)
    requires FormOf(w).RuleForm?
    ensures w != "" && Free(BRACKETS, w)
  {}

  lemma PlainXRule(w: string)
    requires FormOf(w).XRuleForm?
    ensures w != "" && Free(BRACKETS, w)
  {
    PlainXWords();
  }

  lemma PlainXWords()
    ensures Free(BRACKETS, "allowxperm") && Free(BRACKETS, "auditallowxperm") && Free(BRACKETS, "dontauditxperm")
  {}

  lemma PlainName(w: string)
    requires FormOf(w).NameForm?
    ensures w != "" && Free(BRACKETS, w)
  {}

  lemma PlainAction(w: string)
    requires FormOf(w) != NoForm
    ensures w != "" && Free(BRACKETS, w)
  {
    match FormOf(w)
    case RuleForm(_) => PlainRule(w);
    case XRuleForm(_) => PlainXRule(w);
    case NameForm(_) => PlainName(w);
    case _ =>
  }

  lemma BodyIs(s: string)
    requires Blanks(s) > 0 && FirstWord(s) != ""
    ensures |FirstWord(s)| < |s| && BodyOf(s) == (s[..Blanks(s)] + FirstWord(s))[|FirstWord(s)| + 1..]
  {
    assert s[..Blanks(s) + |FirstWord(s)|] == s[..Blanks(s)] + FirstWord(s);
  }

  /** Behind a blank the parser sees no part of the statement but the end of its action word. */
  lemma LeadingBlankBody(s: string)
    requires Blanks(s) > 0 && FormIn(s) != NoForm
    ensures |FirstWord(s)| < |s|
    ensures Tokens(BLANK, BodyOf(s)) == Tokens(BRACKETS, BodyOf(s)) == Leftover(FirstWord(s), Blanks(s))
    ensures Free(BRACKETS, FirstWord(s))
  {
    var w, b := FirstWord(s), Blanks(s);
    BlanksAre(s);
    PlainAction(w);
    BodyIs(s);
    assert Free(BLANK, w);
    EndOfWord(BLANK, w, s[..b], |w| + 1);
    EndOfWord(BRACKETS, w, s[..b], |w| + 1);
  }

  lemma {:induction false} FewGlyphs(shape: Shape, gs: seq<Glyph>)
    ensures Steps(shape, START, gs).Progress? ==> |Steps(shape, START, gs).done| <= |gs|
  {
    if gs != [] { FewGlyphs(shape, gs[..|gs| - 1]); }
  }

  lemma ShortBodyRejected(gs: seq<Glyph>)
    requires |gs| <= 1
    ensures Parse(PATTERN1, gs).None? && Parse(PATTERN2, gs).None? && Parse(PATTERN5, gs).None?
  {
    FewGlyphs(PATTERN1, gs);
    FewGlyphs(PATTERN2, gs);
    FewGlyphs(PATTERN5, gs);
  }

  lemma LeftoverGlyphs(w: string, b: nat)
    requires Free(BRACKETS, w)
    ensures |LexAll(Leftover(w, b))| <= 1
  {
    if b > 1 {
      var t := Leftover(w, b)[0];
      LexOne(t);
      assert t != "" ==> t[0] in w && t[|t| - 1] in w;
    }
  }

  /** A body of at most one word. */
  lemma ShortBodyEffect(p: Policy, f: Form, body: string, junk: Range)
    requires InRange(p) && Supported(f, body) && |Tokens(BLANK, body)| <= 1 && |Glyphs(body)| <= 1
    ensures !f.NameForm? ==> FormEffect(p, f, body, junk).None?
    ensures f.NameForm? ==>
      FormEffect(p, f, body, junk) == Some(Run(p, NameCommands(f.action, Tokens(BRACKETS, body))))
  {
    ShortBodyRejected(Glyphs(body));
  }

  /** With a blank before its action no statement is accepted but create, permissive and enforce, and
      those act on what is left of the action word instead of the listed names. */
  lemma LeadingBlankEffect(p: Policy, s: string, junk: Range)
    requires InRange(p) && Readable(s) && Blanks(s) > 0
    ensures !FormIn(s).NameForm? ==> Effect(p, s, junk).None?
    ensures FormIn(s).NameForm? ==>
      var ws := Leftover(FirstWord(s), Blanks(s));
      Nameable(FormIn(s).action, ws) && Effect(p, s, junk) == Some(Run(p, NameCommands(FormIn(s).action, ws)))
  {
    if FormIn(s) != NoForm {
      LeadingBlankBody(s);
      LeftoverGlyphs(FirstWord(s), Blanks(s));
      ShortBodyEffect(p, FormIn(s), BodyOf(s), junk);
    }
  }

  lemma WithoutBlanks(s: string)
    ensures Blanks(s[Blanks(s)..]) == 0 && FirstWord(s[Blanks(s)..]) == FirstWord(s)
  {
    BlanksAre(s);
    var t := s[Blanks(s)..];
    assert t[0..] == t;
  }

  /** When blanks before the action do no harm: exactly when there are none, or the statement would be
      rejected without them as well, or create, permissive or enforce would do with the listed names what
      they do with the end of their action word. */
  lemma LeadingBlankHarmless(p: Policy, s: string, junk: Range)
    requires InRange(p) && Readable(s) && Readable(s[Blanks(s)..])
    ensures var t := s[Blanks(s)..];
      Effect(p, s, junk) == Effect(p, t, junk) <==>
        || Blanks(s) == 0
        || (if FormIn(s).NameForm?
            then SameWork(p, FormIn(s).action, Leftover(FirstWord(s), Blanks(s)), Tokens(BRACKETS, BodyOf(t)))
            else Effect(p, t, junk).None?)
  {
    var t := s[Blanks(s)..];
    WithoutBlanks(s);
    if Blanks(s) == 0 {
      assert t == s;
    } else {
      LeadingBlankEffect(p, s, junk);
      if FormIn(s).NameForm? {
        SameEffect(p, FormIn(s).action, Leftover(FirstWord(s), Blanks(s)), Tokens(BRACKETS, BodyOf(t)));
      }
    }
  }

  // ------------------------------------------------------------------ inputs

  lemma {:induction false} BlanksOf(blanks: string, s: string)
    requires s != "" && s[0] != ' ' && forall i :: 0 <= i < |blanks| ==> blanks[i] == ' '
    ensures Blanks(blanks + s) == |blanks|
    decreases |blanks|
  {
    if blanks == "" {
      assert blanks + s == s;
    } else {
      BlanksOf(blanks[1..], s);
      TailOfSum(blanks, s);
    }
  }

  /** An action word with blanks in front. */
  lemma ActionOf(w: string, body: string, blanks: string)
    requires w != "" && Free(BLANK, w) && forall i :: 0 <= i < |blanks| ==> blanks[i] == ' '
    ensures Blanks(blanks + (w + (" " + body))) == |blanks| && FirstWord(blanks + (w + (" " + body))) == w
  {
    var rest := " " + body;
    HeadOf(w, rest);
    BlanksOf(blanks, w + rest);
    SuffixOfSum(blanks, w + rest);
    WordLengthAppend(BLANK, w, rest);
  }

  lemma HeadOf(w: string, rest: string)
    requires w != "" && Free(BLANK, w)
    ensures w + rest != "" && (w + rest)[0] != ' ' && (w + rest)[..|w|] == w
  {
    assert (w + rest)[0] == w[0] && w[0] in w;
  }

  lemma ActionAndBody(w: string, body: string)
    requires w != "" && Free(BLANK, w)
    ensures FirstWord(w + (" " + body)) == w && BodyOf(w + (" " + body)) == body
  {
    var s := w + (" " + body);
    ActionOf(w, body, "");
    assert "" + s == s;
    BodyBehind(w, body);
  }

  lemma BodyBehind(w: string, body: string)
    ensures (w + (" " + body))[|w| + 1..] == body
  {}

  /** Every well-formed rule is accepted, with the meaning of its items. */
  lemma RuleAccepted(p: Policy, w: string, a: Action, ws: seq<Written>, junk: Range)
    requires InRange(p) && FormOf(w) == RuleForm(a)
    requires (forall x :: x in ws ==> Plain(x.item)) && Fits(PATTERN1, Items(ws))
    ensures var s, items := w + (" " + Text(AllTokens(ws))), Items(ws);
      Readable(s) && Effect(p, s, junk) ==
        Some(Meaning(p, a, NamesOf(Words(items[0])), NamesOf(Words(items[1])), NameOf(items[2].word),
                     NamesOf(Words(items[3]))))
  {
    PlainRule(w);
    ActionAndBody(w, Text(AllTokens(ws)));
    SpacingIrrelevant(PATTERN1, ws);
  }

  /** Behind any number of blanks none is. */
  lemma RuleRejected(p: Policy, w: string, a: Action, body: string, blanks: string, junk: Range)
    requires InRange(p) && FormOf(w) == RuleForm(a)
    requires blanks != "" && forall i :: 0 <= i < |blanks| ==> blanks[i] == ' '
    ensures var s := blanks + (w + (" " + body));
      Readable(s) && Effect(p, s, junk).None?
  {
    PlainRule(w);
    ActionOf(w, body, blanks);
    LeadingBlankEffect(p, blanks + (w + (" " + body)), junk);
  }

  /** ` allow a b c d ` is such a statement. */
  lemma BlankRejects(p: Policy, junk: Range)
    requires InRange(p)
    ensures var s := "allow" + (" " + Text(AllTokens(SAMPLE)));
      && Readable(s) && Effect(p, s, junk).Some?
      && Readable(" " + s) && Effect(p, " " + s, junk).None?
  {
    SampleIsPlain();
    RuleAccepted(p, "allow", Allow, SAMPLE, junk);
    RuleRejected(p, "allow", Allow, Text(AllTokens(SAMPLE)), " ", junk);
  }

  /** Two blanks before `create`: whatever is listed, the one type created is named `e`. */
  lemma BlanksCreate(p: Policy, body: string, junk: Range)
    requires InRange(p)
    ensures var s := "  " + ("create" + (" " + body));
      Readable(s) && Effect(p, s, junk) == Some(Run(p, [CreateCmd("e")]))
  {
    var s := "  " + ("create" + (" " + body));
    PlainName("create");
    ActionOf("create", body, "  ");
    LeadingBlankBody(s);
    LeftoverOfCreate();
    LeadingBlankEffect(p, s, junk);
  }

  lemma LeftoverOfCreate()
    ensures Leftover("create", 2) == ["e"] && Nameable(Creating, ["e"])
    ensures NameCommands(Creating, ["e"]) == [CreateCmd("e")]
  {
    assert "create"[5..] == "e";
  }
}
