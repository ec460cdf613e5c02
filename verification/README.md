# A verified model of su-binary

This project models, in Dafny, the parts of su-binary that carry its logic, and proves what they do
for every input, every run and every interleaving:

- **the SELinux policy patcher** (`jni/magiskpolicy`): the in-place statement parser, the product and
  wildcard expansion, the access-vector table, type/attribute bitmaps, constraints and ioctl ranges.
  A statement's step-by-step execution is proved equal to a set-based meaning, from the characters of
  its text to the bits of the table.
- **the su client/daemon protocol** (`jni/su/daemon.c`, `jni/su/daemonize.c`, `jni/su/pts.c`): the byte
  codec, all interleavings of client and handler over a bounded socket, descriptor routing and pumping.
- **the smaller algorithms around them**: process titles, the property scanner, the exec vector, the
  ring list, the doubling vector, and the merge of module images.

| file | models |
|---|---|
| `PolicyModel.dfy`, `PolicyDb.dfy` | the policy as a value with the meaning of statements; the class whose methods patch it in place |
| `PolicyTheorems.dfy`, `PolicyRuns.dfy` | effective access, constraint closure; invariants of whole runs |
| `Ioctl.dfy`, `RangeText.dfy` | extended permissions; the text of ioctl ranges |
| `StatementSyntax.dfy`, `StatementParser.dfy` | grammar, automaton and spacing of statements; the parser that cuts its buffer in place |
| `Patcher.dfy`, `NameLists.dfy`, `StatementLoop.dfy`, `StatementTexts.dfy` | from statement text to patched policy; what name lists amount to; the statement loop; what each action word does |
| `SuCodec.dfy`, `SuHandshake.dfy`, `FdRouting.dfy`, `Pump.dfy` | request codec, handshake runs, descriptor tables, pumping |
| `ProcTitle.dfy`, `Properties.dfy`, `SuOptions.dfy`, `ExecVector.dfy` | process title, property lookup, options of su, exec vector |
| `Ring.dfy`, `Vector.dfy`, `ImageMerge.dfy` | linked ring, vector, image merge |
| `CStrings.dfy`, `Wrappers.dfy` | NUL-terminated strings in a flat memory; the option type and facts on sequences and sets |

## How things are represented

- libsepol's hash tables are maps and its bitmaps are sets. A hash table is walked by choosing the next
  entry arbitrarily, so every contract holds for every bucket order. The 32-bit vector of a rule is the
  set of permission numbers 1..32 whose bit is set; an absent key reads as the empty set.
- The wildcard `*`, a NULL pointer in C, is `None`.
- An extended key has one entry. libsepol may keep several nodes under one key; the code finds and changes the
  first, which is the entry of the model, and what the others permit is not counted.
- C strings live in character arrays and are cut by writing NULs, as in the source; parsed lists hold
  positions in the buffer.
- `exit` is an error result. Sockets, schedules, exit codes, descriptor limits and the order of directory
  entries are parameters or arbitrary choices.

## Findings

Places where the code does less than its documentation or callers expect. For each there is a theorem that
says exactly when the code does meet them, and an input for which it does not.

| finding | exactly when it is right | an input |
|---|---|---|
| Adding an ioctl range to an entry that lists functions of another driver permits other codes than asked for | `Ioctl.AddCovers`, over whole runs `PolicyRuns.RunCovers` | `Ioctl.MismatchedDriver` |
| With `MOUNT_EMULATED_STORAGE` set and no argument, the client announces no arguments but still sends one | `SuCodec.RequestRoundTrip` | `SuCodec.LoneArgument` |
| Over a socket that holds one message that client and its handler then block each other | `SuHandshake.BlocksExactly` | `SuHandshake.LoneArgumentBlocks` |
| A statement with a blank before its action is a syntax error, but `create`, `permissive` and `enforce` act on the end of their own action word instead | `StatementLoop.LeadingBlankHarmless` | `StatementLoop.BlankRejects`, `StatementLoop.BlanksCreate` |
| A lone `{` at the end of a statement is accepted | `StatementSyntax.ParseExact` | `StatementSyntax.AcceptedBracket` |
| `create` leaves the constraints that name `domain` incomplete until `attradd` repeats the membership | `PolicyTheorems.CreateClosure` | `PolicyTheorems.CreateBreaksClosure` |
| A command glued to its option as the only argument, as in `su -cls`, needs a slot in front of argv, and an empty argv is read beyond its end | `ExecVector.InsideExactly`, `ExecVector.Su` | `ExecVector.GluedCommand` |
| `attradd` with an undeclared attribute changes the constraints that name the type with value 1 | `PolicyTheorems.UnknownAttribute` | `PolicyTheorems.UnknownAttributeHarms` |
| An ioctl range that does not read is taken from uninitialised variables | `RangeText.JunkMatters` | `RangeText.JunkRange` |
| Copying a tree deletes target entries whose source is neither file, link nor directory | `ImageMerge.OverlayLeaves`, `ImageMerge.FreshCopy` | `ImageMerge.SpecialDeletes` |
| A module is lost if a dangling link bears its name in the target | `ImageMerge.ModuleArrives` | `ImageMerge.ModuleLost` |

## Model

| member | source | states |
|---|---|---|
| PolicyModel.MeaningOfStatement | jni/magiskpolicy/magiskpolicy.c:124-152 | bit by bit and from the symbol tables alone: an accepted rule statement sets (deny: clears) in the vector of its action exactly the listed sources x targets x class x permissions, a permission being the class's own or else inherited from its common class; every other bit of every key is untouched, and an unknown name or a named permission without a class contributes nothing |
| PolicyModel.ResolvesExactly | jni/magiskpolicy/sepolicy.c:485-525 | the error of add_rule from the symbol tables alone: an unknown name, or a permission without a class or neither the class's own nor inherited |
| PolicyModel.MeaningIgnoresOrder | jni/magiskpolicy/magiskpolicy.c:124-126 | listing order and repetitions do not matter |
| PolicyModel.UnresolvedRule | jni/magiskpolicy/sepolicy.c:485-525 | a rule with an unresolvable name touches no key |
| PolicyModel.PatchTwice | jni/magiskpolicy/sepolicy.c:69-79 | setting or clearing twice is once with the union, which makes execution order irrelevant |
| PolicyDb.Db.AddOneRule | jni/magiskpolicy/sepolicy.c:53-90 | one key gets one bit, or all 32, set or cleared; a missing key is created |
| PolicyDb.Db.AddRuleAuto | jni/magiskpolicy/sepolicy.c:92-115 | the recursive walk patches exactly the product of the expanded sources, targets and classes, for every bucket order |
| PolicyDb.Db.AddRuleEachSource | jni/magiskpolicy/sepolicy.c:96-100 | the walk over all sources patches every named source and no other key |
| PolicyDb.Db.AddRuleEachTarget | jni/magiskpolicy/sepolicy.c:101-105 | the same for all targets of one source |
| PolicyDb.Db.AddRuleEachClass | jni/magiskpolicy/sepolicy.c:106-110 | the same for all classes of one pair, with every permission |
| PolicyDb.Db.AddRule | jni/magiskpolicy/sepolicy.c:480-527 | fails exactly on an unresolvable rule, changing nothing; otherwise applies it |
| PolicyDb.Db.ApplyStatement | jni/magiskpolicy/magiskpolicy.c:124-152 | the nested product loops turn the policy into the set-based meaning of the statement |
| PolicyDb.Db.AddOneXperm | jni/magiskpolicy/sepolicy.c:120-169 | one key gets the range added or removed according to its kind; a missing entry is created with the kind its range calls for |
| PolicyDb.FillBits | jni/magiskpolicy/sepolicy.c:145-158 | sets or clears exactly the bits from first to last, none if they are reversed |
| PolicyDb.Db.AddXpermAuto | jni/magiskpolicy/sepolicy.c:171-195 | the recursive walk patches exactly the expanded product |
| PolicyDb.Db.AddXpermRule | jni/magiskpolicy/sepolicy.c:529-572 | resolution errors change nothing; a missing range is 0 to 0xFFFF |
| PolicyDb.Db.ApplyXStatement | jni/magiskpolicy/magiskpolicy.c:346-370 | the product loops equal the set-based meaning of the extended statement |
| PolicyDb.Db.SetAttribute | jni/magiskpolicy/sepolicy.c:37-51 | both bitmaps get the membership, or neither for something that is not an attribute |
| PolicyDb.Db.CreateDomain | jni/magiskpolicy/sepolicy.c:280-328 | a new name gets the next value, its own bit, every role and the attribute domain; an existing one changes nothing |
| PolicyDb.Db.AddTypeAttribute | jni/magiskpolicy/sepolicy.c:451-478 | membership plus the name sets of all constraints that name the attribute, with the stand-in id 1 for unknown attributes |
| PolicyDb.JoinConstraints | jni/magiskpolicy/sepolicy.c:467-475 | exactly the name sets of expressions that name the attribute gain the type |
| PolicyDb.Db.SetDomainState | jni/magiskpolicy/sepolicy.c:330-354 | the named type, or every type in any bucket order, becomes permissive or enforcing; an unknown name changes nothing |
| PolicyDb.Db.AddTypeTransition | jni/magiskpolicy/sepolicy.c:356-405 | one default type is set, or nothing for any unknown name |
| PolicyModel.AttrAddRows | jni/magiskpolicy/sepolicy.c:37-51 | attradd row by row: the type gets the attribute, the attribute the member, no other row and no other field moves; a name that is no attribute changes no row |
| PolicyModel.AttrAddExpr | jni/magiskpolicy/sepolicy.c:462-476 | attradd expression by expression: exactly those that name the attribute, or type 1 in place of an unknown one, gain the type and nothing else |
| PolicyModel.CreateFields | jni/magiskpolicy/sepolicy.c:280-325 | create field by field: the next value, not an attribute, in every role and no negative set; a known name changes nothing |
| PolicyModel.CreateRows | jni/magiskpolicy/sepolicy.c:296-328 | create row by row: the new type has itself and domain, domain gains the member, no other row moves |
| PolicyModel.StateOf | jni/magiskpolicy/sepolicy.c:330-354 | type by type which are permissive afterwards |
| PolicyModel.TransitionOf | jni/magiskpolicy/sepolicy.c:356-405 | key by key which default type it has afterwards |
| PolicyTheorems.AttrAddAccess | jni/magiskpolicy/sepolicy.c:451-460 | attradd gives the type exactly the attribute's access on top of its own, as source and target, and nobody else any |
| PolicyTheorems.CreateAccess | jni/magiskpolicy/sepolicy.c:280-328 | a created domain has exactly the access of the attribute domain in both directions; all other accesses are as before |
| PolicyTheorems.AllowAccess | jni/magiskpolicy/sepolicy.c:53-115 | after allow, also on all classes, a pair has an access exactly if it had it before or both sides belong to the listed names |
| PolicyTheorems.DenyEverywhere | jni/magiskpolicy/sepolicy.c:92-115 | after deny * * c p no pair of types has p in c, for any listed permissions and also for all classes |
| PolicyTheorems.OnlyItsVector | jni/magiskpolicy/api.c:4-22 | allow and deny leave both audit vectors alone, the audit actions leave access and each other alone |
| PolicyTheorems.AttrAddClosure | jni/magiskpolicy/sepolicy.c:462-476 | attradd keeps what closure there is of every attribute and supplies its own pair where it is missing |
| PolicyTheorems.AttrAddKeepsClosure | jni/magiskpolicy/sepolicy.c:462-476 | attradd keeps every closed attribute closed, also when the attribute is unknown |
| PolicyTheorems.CreateClosure | jni/magiskpolicy/sepolicy.c:327-328 | create keeps every closed attribute closed but domain, which stays closed if and only if the constraints naming it already name the new value |
| PolicyTheorems.CreateBreaksClosure | jni/magiskpolicy/sepolicy.c:327-328 | a valid, closed policy that creating any type leaves open |
| PolicyTheorems.CreateThenAttrAdd | jni/magiskpolicy/sepolicy.c:451-478 | attradd of the new type to domain after create restores the closure of every attribute |
| PolicyTheorems.UnknownAttribute | jni/magiskpolicy/sepolicy.c:26-34 | attradd with an undeclared attribute touches nothing but the constraints that name type 1, and is harmless if and only if those name the type already |
| PolicyTheorems.UnknownAttributeHarms | jni/magiskpolicy/sepolicy.c:462-476 | a policy in which such an attradd does change a constraint |
| PolicyRuns.RunValid | jni/magiskpolicy/sepolicy.c:280-328 | every run keeps the two bitmaps transposed off the diagonal, own bits, ranges, and rules, permissive types and transitions about named types |
| PolicyRuns.RunKeepsNames | jni/magiskpolicy/sepolicy.c:292-294 | names keep their values over every run, and unique values stay unique |
| PolicyRuns.RunEnrols | jni/magiskpolicy/sepolicy.c:319-325 | every type a run creates is in every role at the end, and in no role's negative set |
| PolicyRuns.RunGrowsNames | jni/magiskpolicy/sepolicy.c:465-476 | no run removes a name from a constraint |
| PolicyRuns.RunKeepsClosure | jni/magiskpolicy/sepolicy.c:451-478 | every run keeps the constraint closure of every attribute, and of domain if each create is followed, anywhere later, by the attradd that repeats it |
| PolicyRuns.RunExtends | jni/magiskpolicy/sepolicy.c:120-169 | no run of statements changes the kind or driver of an ioctl entry or withdraws a code |
| PolicyRuns.AttrRunRows | jni/magiskpolicy/sepolicy.c:451-460 | after a run of attradd every type has exactly the attributes it was listed with on top of its own, and every attribute those members |
| PolicyRuns.AttrRunExpr | jni/magiskpolicy/sepolicy.c:462-476 | after a run of attradd every constraint has exactly the types that joined an attribute it names |
| PolicyRuns.RunCovers | jni/magiskpolicy/sepolicy.c:120-169 | whatever statements run before and after, a range added to a key is covered at the end if and only if the entry found there, or made, could express it |
| PolicyRuns.Execute | jni/magiskpolicy/magiskpolicy.c:422-465 | commands executed one after the other in place equal the fold of their meanings |
| Ioctl.FreshRange | jni/magiskpolicy/sepolicy.c:131-158 | a new entry permits exactly the range within one driver, else all codes of the drivers from first to last, and nothing for a reversed range |
| Ioctl.FewestDrivers | jni/magiskpolicy/sepolicy.c:144-150 | those are the fewest whole drivers that contain the range |
| Ioctl.AddCovers | jni/magiskpolicy/sepolicy.c:144-158 | adding a range to an entry covers it if and only if it is empty, or the entry lists drivers, or both ends are of the entry's driver |
| Ioctl.MismatchedDriver | jni/magiskpolicy/sepolicy.c:151-158 | an input for which the range is not covered and another code is permitted |
| Ioctl.MeaningOfXStatement | jni/magiskpolicy/magiskpolicy.c:346-370 | key by key and code by code what an extended statement does: other keys unchanged, a new key permits the range or its drivers, an existing one gains exactly the codes its kind reads out of the range |
| Ioctl.CoveredForGood | jni/magiskpolicy/sepolicy.c:144-158 | later additions neither withdraw a covered range nor cover one that was not expressible |
| Ioctl.EveryCode | jni/magiskpolicy/sepolicy.c:566-569 | a missing range on a new entry permits every code |
| Ioctl.RemoveRange | jni/magiskpolicy/sepolicy.c:144-158 | clearing a range withdraws exactly the codes that adding it gives the entry |
| StatementSyntax.ParseExact | jni/magiskpolicy/magiskpolicy.c:83-123 | the bracket automaton accepts exactly one item per slot plus an optional lone trailing bracket, and yields those items |
| StatementSyntax.Unambiguous | jni/magiskpolicy/magiskpolicy.c:83-123 | a statement has at most one reading |
| StatementSyntax.SpacingIrrelevant | jni/magiskpolicy/magiskpolicy.c:84-97 | every mixture of glued and spaced brackets parses to the same items |
| StatementSyntax.CloseRejected | jni/magiskpolicy/magiskpolicy.c:91-97 | a closing bracket outside a bracket is fatal whatever follows |
| StatementSyntax.TrailingBracket | jni/magiskpolicy/magiskpolicy.c:84-90 | every statement, however spaced, means the same with a lone opening bracket behind it |
| StatementSyntax.AcceptedBracket | jni/magiskpolicy/magiskpolicy.c:84-90 | such a statement body, `a b c d { ` |
| StatementSyntax.TokensOfGaps | jni/magiskpolicy/magiskpolicy.c:82-121 | strtok_r's tokens of any text: the words, whatever delimiters and however many stand before and between them |
| StatementSyntax.LexForm | jni/magiskpolicy/magiskpolicy.c:84-119 | any token: its opening brackets, its word if any, its closing brackets |
| StatementSyntax.PatternShapes | jni/magiskpolicy/magiskpolicy.c:84-123 | what the patterns take: sources, targets, one class, permissions; types, attributes; sources, targets, classes, two words |
| StatementSyntax.Wildcards | jni/magiskpolicy/magiskpolicy.c:99-99 | a word stands for everything exactly if it starts with an asterisk |
| StatementParser.NextToken | jni/magiskpolicy/magiskpolicy.c:82-121 | strtok_r, for any delimiters, yields the next token and leaves the unread text and all earlier memory intact |
| StatementParser.ParseToken | jni/magiskpolicy/magiskpolicy.c:84-119 | one round of the loop advances the automaton or rejects; the remaining token is never empty and gets shorter |
| StatementParser.ParseSlots | jni/magiskpolicy/magiskpolicy.c:75-123 | the in-place loop terminates, accepts exactly what the automaton accepts, and its pointers still read as the parsed words at the end |
| StatementParser.CollectWords | jni/magiskpolicy/magiskpolicy.c:227-232 | the pointers stored by the loop read as all tokens of the text at its end |
| Patcher.ParsePattern1 | jni/magiskpolicy/magiskpolicy.c:75-157 | from text to policy: rejected and unchanged, or the meaning of the parsed items |
| Patcher.ParsePattern2 | jni/magiskpolicy/magiskpolicy.c:160-220 | the same for attradd, as a run of all pairs |
| Patcher.AttrCommandsAre | jni/magiskpolicy/magiskpolicy.c:205-218 | every listed pair of type and attribute occurs, and nothing else |
| Patcher.MeaningOfAttrStatement | jni/magiskpolicy/magiskpolicy.c:205-218 | an attradd statement bit by bit: the listed types have the listed attributes on top of their own, and no other bit moves |
| Patcher.ParsePattern3 | jni/magiskpolicy/magiskpolicy.c:223-255 | create, permissive and enforce run over all listed names in order, brackets counting as blanks |
| Patcher.ParsePattern4 | jni/magiskpolicy/magiskpolicy.c:258-290 | typetrans needs exactly four words and sets that transition |
| Patcher.ParsePattern5 | jni/magiskpolicy/magiskpolicy.c:293-375 | the same as pattern 1 for extended permissions, with the range read out of its text |
| RangeText.RangeReads | jni/magiskpolicy/sepolicy.c:559-565 | one hexadecimal number is both ends of a range, two with a dash are its ends, with or without 0x; of each the low 16 bits count |
| RangeText.RangeRoundTrip | jni/magiskpolicy/sepolicy.c:559-565 | every range that is written, in upper or lower case and with 0x or without, is read back |
| RangeText.SignedScan | jni/magiskpolicy/sepolicy.c:559-565 | a minus sign wraps a number around in 16 bits, a plus sign does nothing |
| RangeText.JunkMatters | jni/magiskpolicy/sepolicy.c:557-565 | the range depends on its text alone if and only if both ends can be read; otherwise uninitialised values are used |
| RangeText.JunkRange | jni/magiskpolicy/sepolicy.c:557-565 | a text that does not read |
| StatementLoop.CutFirstWord | jni/magiskpolicy/magiskpolicy.c:425-427 | finds the action word and where the body is looked for |
| StatementLoop.RunStatement | jni/magiskpolicy/magiskpolicy.c:424-464 | one statement has exactly its textual effect, or is reported and has none |
| StatementLoop.RunStatements | jni/magiskpolicy/magiskpolicy.c:422-468 | the whole loop folds the effects, keeps the invariants and reports exactly whether something was rejected |
| StatementLoop.EffectValid | jni/magiskpolicy/magiskpolicy.c:422-465 | every accepted statement keeps the policy invariants |
| StatementLoop.EffectAllAppend | jni/magiskpolicy/magiskpolicy.c:422-465 | one more statement: accepted it has its effect on what the others left, rejected it has none and is reported, and the loop goes on either way |
| StatementTexts.RuleStatements | jni/magiskpolicy/magiskpolicy.c:426-437 | the words allow, deny, auditallow and auditdeny in front of any well-formed body have the meanings of those actions |
| StatementTexts.AllowAndDeny | jni/magiskpolicy/api.c:4-12 | from text to bits: allow sets and deny clears exactly the named bits of the access vectors |
| StatementTexts.XRuleStatements | jni/magiskpolicy/magiskpolicy.c:453-461 | the same for allowxperm, auditallowxperm and dontauditxperm and their three kinds of entry |
| StatementTexts.AttrStatement | jni/magiskpolicy/magiskpolicy.c:438-440 | the same for attradd |
| StatementTexts.CreateStatement | jni/magiskpolicy/magiskpolicy.c:441-443 | the text of a create statement, in any mixture of blanks and brackets, creates exactly its new names |
| StatementTexts.StateStatements | jni/magiskpolicy/magiskpolicy.c:444-449 | permissive makes exactly the listed types permissive, enforce makes them enforcing |
| StatementTexts.TransStatement | jni/magiskpolicy/magiskpolicy.c:450-452 | the text of a typetrans statement sets the transition of its four words |
| StatementTexts.Rejected | jni/magiskpolicy/magiskpolicy.c:426-461 | a body of the wrong shape is rejected for each of the patterns |
| StatementTexts.OtherWords | jni/magiskpolicy/magiskpolicy.c:462-464 | no other word is an action |
| StatementLoop.LeadingBlankEffect | jni/magiskpolicy/magiskpolicy.c:425-461 | behind a blank no statement is accepted but create, permissive and enforce, which act on exactly what is left of the action word |
| StatementLoop.LeadingBlankHarmless | jni/magiskpolicy/magiskpolicy.c:425-461 | blanks before the action make no difference if and only if there are none, or the statement is rejected anyway, or the listed names amount to the same as the end of the action word |
| NameLists.CreatesNew | jni/magiskpolicy/magiskpolicy.c:234-251 | a create list creates exactly its unknown names, each once, with consecutive values in order |
| NameLists.StatesAll | jni/magiskpolicy/magiskpolicy.c:234-251 | a permissive or enforce list sets the state of exactly the types it resolves to |
| NameLists.SameEffect | jni/magiskpolicy/magiskpolicy.c:234-251 | two lists have the same effect if and only if they have the same new names, or the same types whose state changes |
| StatementLoop.BlankRejects | jni/magiskpolicy/magiskpolicy.c:425-427 | a rule that is accepted, and rejected behind one blank |
| StatementLoop.BlanksCreate | jni/magiskpolicy/magiskpolicy.c:441-443 | behind two blanks create makes a type named e, whatever was listed |
| SuCodec.RequestRoundTrip | jni/su/daemon.c:278-313 | what the handler decodes is what the client meant with nothing left over, if and only if the request is transmittable |
| SuCodec.MeantIs | jni/su/daemon.c:596-642 | what is meant is what the client has: its ids, flag and streams, and all arguments in order, without the second one if storage is to be mounted |
| SuCodec.TransmittableIs | jni/su/daemon.c:185-193 | transmittable in numbers: strings of at most 4096 bytes, at most 512 arguments, and one to drop when one is dropped |
| SuCodec.SentLayout | jni/su/daemon.c:596-642 | the order of everything on the wire |
| SuCodec.IntBytesAre | jni/su/daemon.c:167-183 | the four bytes of an int, lowest first |
| SuCodec.BadLength | jni/su/daemon.c:185-193 | a length that is negative, too large or not backed by bytes ends the handler, and so does a bad argument count |
| SuCodec.FdBytes | jni/su/daemon.c:67-113 | what recv_fd makes of a byte with a descriptor, without a control message, and with another one |
| SuCodec.LoneArgument | jni/su/daemon.c:632-642 | the request of a lone su with mounting: no arguments, and the name left in the socket |
| SuCodec.PrefixFree | jni/su/daemon.c:596-642 | no request is a proper prefix of another |
| SuCodec.TakePutString | jni/su/daemon.c:185-213 | a string is read back exactly up to PATH_MAX, else the reader exits |
| SuCodec.TakePutInt | jni/su/daemon.c:167-183 | every 32-bit integer survives its four bytes |
| SuCodec.Pipe.SendRequest | jni/su/daemon.c:596-642 | connect_daemon writes exactly the encoding, skipping the second argument with mounting |
| SuCodec.Pipe.ReceiveRequest | jni/su/daemon.c:278-313 | daemon_accept reads exactly what the decoder describes, or exits |
| SuCodec.Pipe.ReadString | jni/su/daemon.c:185-203 | length check, then that many bytes |
| SuCodec.Pipe.RecvFd | jni/su/daemon.c:67-113 | one byte and the descriptor it may carry; exit on any other control message |
| SuHandshake.MessagesAreSent | jni/su/daemon.c:596-642 | the messages of the runs are the byte stream of the codec |
| SuHandshake.RunInv | jni/su/daemon.c:302-372 | every state of every interleaving satisfies the protocol invariant |
| SuHandshake.HandshakeSafety | jni/su/daemon.c:315-372 | the acknowledgement comes only after everything announced is consumed and decoded, which leaves nothing unless the lone argument was dropped; a client returns the integer the handler sent |
| SuHandshake.AcceptExits | jni/su/daemon.c:185-193 | exactly which message makes the handler exit at each read |
| SuHandshake.NothingExtra | jni/su/daemon.c:632-642 | a request is transmittable exactly if it is announced in full |
| SuHandshake.NeverBothBlock | jni/su/daemon.c:596-661 | if the queue holds what is never read, client and handler never both block |
| SuHandshake.NeverAcknowledged | jni/su/daemon.c:632-645 | otherwise the client never reads its acknowledgement |
| SuHandshake.BlocksExactly | jni/su/daemon.c:596-661 | no run blocks if and only if the queue holds the messages that are never read |
| SuHandshake.LoneArgumentBlocks | jni/su/daemon.c:632-645 | a run of su alone with mounting that ends with the handler past its acknowledgement, the name unread and both blocked |
| SuHandshake.RunsAreFinite | jni/su/daemon.c:596-661 | whatever the client sends, no run has more than twice as many steps as messages plus five |
| FdRouting.Process.Daemonize | jni/su/daemonize.c:57-77 | goes on exactly if 0, 1 and 2 could be freed, with those three on /dev/null and all else below the limit closed |
| FdRouting.LowestAboveStandard | jni/su/daemonize.c:65-67 | from then on every new descriptor is at least 3 |
| FdRouting.Process.AcceptClient | jni/su/daemon.c:296-300 | received descriptors are above 2, distinct from the daemon's, and the connection is closed again |
| FdRouting.Process.RunChild | jni/su/daemon.c:250-271 | the three dup2 and close calls move all streams without overwriting one |
| FdRouting.Process.ServeChild | jni/su/daemon.c:376-433 | 0, 1 and 2 are the client's streams, or the terminal where none was sent; no received descriptor stays open; exits exactly when the proposed terminal cannot be used, or there is none and a stream is missing |
| FdRouting.Process.DaemonToChild | jni/su/daemon.c:441-484 | the same from any table the daemon was started with and any limit; above 2 nothing is open but what daemonize left and an unused terminal |
| Pump.WriteBlocking | jni/su/pts.c:39-50 | all bytes in order for every schedule of short writes, or a proper prefix on error |
| Pump.PumpAll | jni/su/pts.c:56-64 | the output is a prefix of the input, all of it without errors, and short by at most one buffer after a write error |
| ProcTitle.CopyString | jni/su/setproctitle.c:16-37 | a bounded copy that always ends in NUL and touches nothing else |
| ProcTitle.Relocate | jni/su/setproctitle.c:90-100 | the block reaches to the end of the run of adjacent strings; exactly the strings on the run are moved, to consecutive places inside the allocation; every string keeps its content and none is left in the block |
| ProcTitle.RunIsFilled | jni/su/setproctitle.c:82-100 | the reclaimed block is exactly the memory of the strings on the run |
| ProcTitle.RunIsGreedy | jni/su/setproctitle.c:82-100 | the run takes in every string that starts where it ends, whatever was passed over before, and no other |
| ProcTitle.AllReclaimed | jni/su/setproctitle.c:39-52 | arguments and environment without a gap are reclaimed entirely and every environment string is moved |
| ProcTitle.Init | jni/su/setproctitle.c:63-105 | the same for the whole initialisation, from the first argument on |
| ProcTitle.SetTitle | jni/su/setproctitle.c:108-121 | the title, cut to fit and padded, written only inside the block; the second argument becomes NULL, the kernel's name is the title's first 15 characters, and the environment is unchanged |
| ProcTitle.SetTitles | jni/su/setproctitle.c:108-118 | the same for any number of titles |
| Properties.Scan | jni/su/utils.c:63-86 | the destructive one-pass scan finds the trimmed value of the first matching line |
| Properties.GetProperty | jni/su/utils.c:56-101 | value, default or -1 at 92 characters |
| Properties.ScanLine | jni/su/utils.c:69-85 | one line is cut into trimmed key and value without touching the rest |
| Properties.FirstMatchMeans | jni/su/utils.c:63-86 | the result is the first line that has an equals sign, is no comment and whose key starts with the search key |
| Properties.FoundImpliesContains | jni/su/utils.c:110-115 | whenever a line is found, check_property is true on the same data |
| Properties.TrimOf | jni/su/utils.c:72-81 | trimming any string leaves exactly what is between its outer white space |
| Properties.LinesOf | jni/su/utils.c:63-66 | any text is its newline-terminated lines and an end that is not looked at |
| Properties.LineOf | jni/su/utils.c:68-85 | a line with white space anywhere around key and value: matches unless it is a comment or its key does not start with the search key, and yields the value |
| ExecVector.HandleOperands | jni/su/su.c:536-569 | login dash, user and double dash are taken from left to right and the rest is left as it is |
| ExecVector.OperandsBack | jni/su/su.c:536-569 | any operands that are written, with or without login dash, user and double dash, are read back with the rest intact |
| ExecVector.BuildVector | jni/su/su.c:214-264 | every access hits a slot of argv if and only if the first operand's slot exists and enough slots precede it, and then arg0, -c and the command if given, exactly the remaining arguments and NULL, with no slot below the start touched |
| ExecVector.WantedIs | jni/su/su.c:214-264 | what is executed in each of the four cases, with the whole argument vector |
| SuOptions.OptionLoop | jni/su/su.c:498-528 | the option loop, over clusters, glued and separate values and long names, ends with what the options come to and optind, or leaves |
| SuOptions.OptionsInAnyStyle | jni/su/su.c:486-528 | options mean the same in every style, short or long, glued or not, long names cut short or not; later ones win; optind is where the rest begins, or behind a double dash; help, version, wrong options and missing values leave |
| SuOptions.Cluster | jni/su/su.c:498-528 | flags in one argument count one by one |
| SuOptions.ClusterValue | jni/su/su.c:498-528 | a command or shell at the end of a cluster takes what is left of the argument, or the next one |
| SuOptions.LongWrong | jni/su/su.c:486-528 | a long option that does not exist, or has a value it does not take, leaves |
| SuOptions.OptionsIndex | jni/su/su.c:498-536 | optind stays within argv, except for an empty vector |
| SuOptions.OneArgument | jni/su/su.c:498-503 | a single argument yields a command exactly if it carries the command's text itself |
| ExecVector.InsideExactly | jni/su/su.c:498-569 | from argv alone: every access stays inside if and only if argv is not empty and is not a name with one argument that carries a command |
| ExecVector.Su | jni/su/su.c:498-569 | options, operands and vector in place for every argv, with exactly that condition |
| ExecVector.GluedCommand | jni/su/su.c:215-219 | `su -cls` writes in front of argv, `su -cls - root` does not, and an empty vector is read beyond its end |
| ExecVector.Exec | jni/su/su.c:536-569 | operands and vector together; with a command, the writes stay inside if and only if three arguments have been consumed |
| ExecVector.AfterSlashMeans | jni/su/su.c:233-234 | the part behind the last slash |
| Ring.Insert | jni/utils/list.c:14-21 | the node goes in right behind the position in a well-formed ring |
| Ring.InsertEnd | jni/utils/list.c:23-25 | the node is appended |
| Ring.Pop | jni/utils/list.c:27-38 | exactly that node is removed and left in a ring of its own; its predecessor is returned |
| Ring.PopEnd | jni/utils/list.c:40-42 | the last node is removed; the bare head stays |
| Ring.InsertThenPop | jni/utils/list.c:14-38 | insertion and removal restore the ring |
| Ring.RunOps | jni/utils/list.c:9-42 | any run of the four operations leaves exactly the ring that the operations describe, at the same head |
| Ring.ApplyMoves | jni/utils/list.c:14-42 | an operation adds or removes its own node and moves every other one to the position that keeps the order |
| Ring.RunKeepsOrder | jni/utils/list.c:9-42 | over any run the nodes that stay keep their order |
| Ring.Traverse | jni/include/list.h:24-26 | visits every node but the head once, in order, and ends |
| Ring.TraverseBack | jni/include/list.h:28-30 | visits the same nodes in reverse |
| Ring.ReversedAt | jni/include/list.h:28-30 | node by node what the reverse order is |
| Vector.AmortisedCost | jni/utils/vector.c:16-30 | over any run fewer than two element copies per push; capacity a power of two below twice the peak |
| Vector.RunOps | jni/utils/vector.c:9-30 | a live vector after any run holds what the pushes and pops leave, within that cost |
| Vector.Vec.PushBack | jni/utils/vector.c:16-24 | appends, doubling when full |
| Vector.Vec.PopBack | jni/utils/vector.c:26-30 | takes the last element off |
| ImageMerge.OverlayLeaves | jni/utils/misc.c:342-391 | path by path: the source's leaves where nothing is in their way, and the target's where the source has none |
| ImageMerge.OverlayDirs | jni/utils/misc.c:347-369 | directories, empty ones included: all of the target's, and the source's where no leaf is in their way |
| ImageMerge.SpecialDeletes | jni/utils/misc.c:372-388 | a special file in the source deletes a file of the target |
| ImageMerge.OverlayTwice | jni/utils/misc.c:342-391 | repeating the copy changes nothing |
| ImageMerge.FreshCopy | jni/utils/misc.c:342-391 | a copy to an empty place is the source exactly if it has no special entries |
| ImageMerge.Copy | jni/utils/misc.c:342-391 | the recursive copy is the overlay for every directory order |
| ImageMerge.MergeTrees | jni/utils/img.c:175-193 | old versions of source modules that access finds are removed and everything is overlaid |
| ImageMerge.MergedEntry | jni/utils/img.c:175-193 | each entry of the merged tree: source modules copied afresh unless a dangling link is in their place, the rest of the source overlaid, target-only entries unchanged |
| ImageMerge.ModuleArrives | jni/utils/img.c:182-193 | a module arrives exactly as in the source if and only if it has no special entries and no dangling link bears its name |
| ImageMerge.ModuleLost | jni/utils/img.c:182-193 | a module that a dangling link swallows |
| ImageMerge.OverlaySize | jni/utils/misc.c:342-391 | the overlay needs no more blocks than source and target together, whatever directories cost |
| ImageMerge.MergedFits | jni/utils/img.c:157-161 | the computed size always holds the merged tree with 32 megabytes to spare |
| ImageMerge.UsedMbIs | jni/utils/img.c:90-92 | the megabytes in use hold the blocks and are never one too many |
| ImageMerge.TrimmedFits | jni/utils/img.c:206-212 | trimming leaves room for what is used |

## Left out

- Patcher.ParsePattern2: a word starting with `*` is excluded, because the code would look up a NULL name.
- Patcher.ParsePattern3: the same for create.
- Patcher.ParsePattern4: a fifth word, the file name, is excluded, because the code looks its key up in the table of types.
- StatementLoop.RunStatement: those three cases are excluded here too, and so in StatementLoop.RunStatements. The statement must contain a word, and one with a known action must reach one character beyond it, because the code reads there.
- Patcher.ParsePattern5: what uninitialised variables hold is one arbitrary range per statement; sscanf's own limit on the length of a number is not modelled.
- FdRouting.Process.ServeChild: every descriptor allocation is taken to succeed.
- ExecVector.Su: the daemon options, which are looked for before the option loop, and the client's way out behind it are left out, and so are user lookup and what an access outside argv does.
- ImageMerge.Copy: the error handler of the x-functions is taken to return; a link that a source directory meets is taken to lead nowhere; file attributes are not modelled.
- SuHandshake.HandshakeSafety: pumping is one step that ends, and each write is delivered whole to the matching read.
- Ring.RunOps: the head itself is never taken out of its ring.
- Properties.GetProperty: the value is taken as copied when the line is found, although the code reads it after freeing the buffer.
- ImageMerge.MergedFits: the blocks of a directory are any function of its names that grows with them and is at most additive; a link or special file counts one block.
- Reading and writing policy images, libsepol's containers and index functions, and the expanded role cache.
- Built-in rule lists and the wrappers of `jni/magiskpolicy/api.c` beyond their action table; `jni/su/supolicy.c`.
- Vector destruction and duplication, deep destruction, and the list destruction macro.
- Mounting, loop devices, running e2fsck and resize2fs, signal handling, terminal modes, environment setup and identity switching.
