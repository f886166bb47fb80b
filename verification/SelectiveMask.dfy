/** Masking of chosen kinds only (`maskPiiSelective`, packages/pii-mask/src/index.ts). */
module SelectiveMask {
  import opened Prelude
  import opened Regex
  import opened EmailScan
  import opened MaskRules
  import opened MarkFacts
  import opened MaskMeaning
  import opened PiiMask
  import opened Stash
  import opened Filling
  import opened HeldPasses

  datatype Kind = RRN | CARD | PHONE | ACCOUNT | EMAIL

  function AllKinds(): set<Kind> { {RRN, CARD, PHONE, ACCOUNT, EMAIL} }

  // ---------------------------------------------------------------- what becomes of a match

  function Chosen(chosen: bool, f: Span -> string): Span -> Decision
  {
    (m: Span) => if chosen then Put(f(m)) else Hold
  }

  function DecideAccount(s: string, chosen: bool, preserveDates: bool, birth: (string, nat) -> bool): Span -> Decision
  {
    (m: Span) => if KeepsDate(s, m, preserveDates, birth) then Keep else if chosen then Put(TEXT_ACCOUNT) else Hold
  }

  // ---------------------------------------------------------------- the whole path

  predicate HasPrivate(s: string) { exists k :: 0 <= k < |s| && !IsPlain(s[k]) }

  datatype Options = Options(full: bool, kinds: set<Kind>, preserveDates: bool, birth: (string, nat) -> bool)

  function RrnStep(s: string, o: Options, stash: seq<string>): (string, seq<string>)
  {
    Widths();
    Pass(Rrn(), s, Chosen(RRN in o.kinds, Constantly([MARK_RRN])), stash)
  }

  function CardStep(s: string, o: Options, stash: seq<string>): (string, seq<string>)
  {
    Widths();
    Pass(Card(), s, Chosen(CARD in o.kinds, Constantly([MARK_CARD])), stash)
  }

  function PhoneStep(s: string, o: Options, stash: seq<string>): (string, seq<string>)
  {
    MoreWidths();
    Pass(Phone(), s, Chosen(PHONE in o.kinds, PhoneText(s, o.full)), stash)
  }

  function AccountStep(s: string, o: Options, stash: seq<string>): (string, seq<string>)
  {
    Widths();
    Pass(Account(), s, DecideAccount(s, ACCOUNT in o.kinds, o.preserveDates, o.birth), stash)
  }

  function EmailStep(s: string, o: Options, stash: seq<string>): (string, seq<string>)
  {
    EmailIsWide();
    Pass(Email(), s, Chosen(EMAIL in o.kinds, Replacing(s, EmailText(o.full))), stash)
  }

  function FiveSteps(text: string, o: Options): (string, seq<string>)
  {
    var a := RrnStep(text, o, []);
    var b := CardStep(a.0, o, a.1);
    var c := PhoneStep(b.0, o, b.1);
    var d := AccountStep(c.0, o, c.1);
    EmailStep(d.0, o, d.1)
  }

  /** `maskPiiSelective`; no result means that the caller falls back to the default path. */
  function Selective(text: string, o: Options): Option<string>
  {
    if text == [] then Some(text)
    else if HasPrivate(text) then None
    else
      var five := FiveSteps(text, o);
      Some(Filled(Spelled(if CARD in o.kinds then Reinforced(five.0) else five.0), five.1))
  }

  // ---------------------------------------------------------------- each step, its kind chosen or not

  lemma NumbersAreSolid()
    ensures TakesSolid(Rrn(), IsPlain) && TakesSolid(Card(), IsPlain) && TakesSolid(Account(), IsPlain)
    ensures TakesSolid(Phone(), IsPlain) && TakesSolid(Email(), IsPlain)
  {
    hide Only, Rrn, Card, Phone, Account, Email;
    Widths();
    MoreWidths();
    EmailIsWide();
    NumbersArePlain();
    PhonesArePlain();
    EmailsArePlain();
  }

  /** The step of a kind that was not chosen leaves the reading as it was. */
  lemma UnchosenStepHolds(s: string, o: Options, stash: seq<string>)
    requires Sealed(s, |stash|)
    ensures RRN !in o.kinds ==> SameText(s, stash, RrnStep(s, o, stash).0, RrnStep(s, o, stash).1)
    ensures CARD !in o.kinds ==> SameText(s, stash, CardStep(s, o, stash).0, CardStep(s, o, stash).1)
    ensures PHONE !in o.kinds ==> SameText(s, stash, PhoneStep(s, o, stash).0, PhoneStep(s, o, stash).1)
    ensures ACCOUNT !in o.kinds ==> SameText(s, stash, AccountStep(s, o, stash).0, AccountStep(s, o, stash).1)
    ensures EMAIL !in o.kinds ==> SameText(s, stash, EmailStep(s, o, stash).0, EmailStep(s, o, stash).1)
  {
    hide SameText, Sealed, TakesSolid, Rrn, Card, Phone, Account, Email, Pass, Restored, KeepsDate, Matches;
    NumbersAreSolid();
    if RRN !in o.kinds { PassHolds(Rrn(), IsPlain, s, Chosen(false, Constantly([MARK_RRN])), stash); }
    if CARD !in o.kinds { PassHolds(Card(), IsPlain, s, Chosen(false, Constantly([MARK_CARD])), stash); }
    if PHONE !in o.kinds { PassHolds(Phone(), IsPlain, s, Chosen(false, PhoneText(s, o.full)), stash); }
    if ACCOUNT !in o.kinds { PassHolds(Account(), IsPlain, s, DecideAccount(s, false, o.preserveDates, o.birth), stash); }
    if EMAIL !in o.kinds { PassHolds(Email(), IsPlain, s, Chosen(false, Replacing(s, EmailText(o.full))), stash); }
  }

  /** The step of a chosen kind is the pass of the default path and sets nothing aside. */
  lemma ChosenStepPuts(s: string, o: Options, stash: seq<string>)
    ensures RRN in o.kinds ==> RrnStep(s, o, stash) == (RrnPass(s, true), stash)
    ensures CARD in o.kinds ==> CardStep(s, o, stash) == (CardPass(s, true), stash)
    ensures PHONE in o.kinds ==> PhoneStep(s, o, stash) == (PhonePass(s, o.full), stash)
    ensures ACCOUNT in o.kinds ==> AccountStep(s, o, stash) == (AccountPass(s, o.preserveDates, o.birth), stash)
    ensures EMAIL in o.kinds ==> EmailStep(s, o, stash) == (EmailPass(s, o.full), stash)
  {
    hide Pass, ReplaceAll, Rrn, Card, Phone, Account, Email, Cut, KeepsDate;
    Widths();
    MoreWidths();
    EmailIsWide();
    PassPuts(Rrn(), s, Chosen(true, Constantly([MARK_RRN])), Constantly([MARK_RRN]), stash);
    PassPuts(Card(), s, Chosen(true, Constantly([MARK_CARD])), Constantly([MARK_CARD]), stash);
    PassPuts(Phone(), s, Chosen(true, PhoneText(s, o.full)), PhoneText(s, o.full), stash);
    PassPuts(Account(), s, DecideAccount(s, true, o.preserveDates, o.birth), AccountText(s, o.preserveDates, o.birth), stash);
    PassPuts(Email(), s, Chosen(true, Replacing(s, EmailText(o.full))), Replacing(s, EmailText(o.full)), stash);
  }

  // ---------------------------------------------------------------- whatever the kinds, nothing set aside is lost

  lemma SolidCut(s: string, m: Span, c: char)
    requires SolidSpan(s, m) && c in Cut(s, m)
    ensures IsSolid(c)
  {
  }

  lemma PhoneIsSolid(s: string, m: Span, full: bool)
    requires SolidSpan(s, m)
    ensures AllSolid(PhoneText(s, full)(m))
  {
    hide MaskPhone, Cut, SolidSpan, IsSolid;
    var t := PhoneText(s, full)(m);
    forall k | 0 <= k < |t| ensures IsSolid(t[k]) {
      if !IsSolid(t[k]) {
        assert t[k] in t;
        SolidOrPrivate(t[k]);
        CountText(t[k], t[k]);
        if t[k] in Cut(s, m) {
          SolidCut(s, m, t[k]);
        } else {
          PhoneKeepsMarks(Cut(s, m), t[k]);
        }
      }
    }
  }

  lemma EmailIsSolid(s: string, m: Span, full: bool)
    requires SolidSpan(s, m)
    ensures AllSolid(Replacing(s, EmailText(full))(m))
  {
    hide MaskEmail, Cut, SolidSpan, IsSolid;
    var t := Replacing(s, EmailText(full))(m);
    forall k | 0 <= k < |t| ensures IsSolid(t[k]) {
      if !IsSolid(t[k]) {
        assert t[k] in t;
        SolidOrPrivate(t[k]);
        CountText(t[k], t[k]);
        if t[k] in Cut(s, m) {
          SolidCut(s, m, t[k]);
        } else {
          EmailKeepsMarks(Cut(s, m), t[k]);
        }
      }
    }
  }

  lemma SolidOrPrivate(c: char)
    ensures !IsSolid(c) ==> !IsPlain(c)
  {
  }

  lemma TextsAreSolid()
    ensures AllSolid([MARK_RRN]) && AllSolid([MARK_CARD]) && AllSolid(TEXT_ACCOUNT) && AllSolid(TEXT_RRN) && AllSolid(TEXT_CARD)
  {
  }

  lemma StepsAccount(s: string, o: Options, stash: seq<string>)
    requires Accounted(s, stash)
    ensures Accounted(RrnStep(s, o, stash).0, RrnStep(s, o, stash).1) && stash <= RrnStep(s, o, stash).1
    ensures Accounted(CardStep(s, o, stash).0, CardStep(s, o, stash).1) && stash <= CardStep(s, o, stash).1
    ensures Accounted(PhoneStep(s, o, stash).0, PhoneStep(s, o, stash).1) && stash <= PhoneStep(s, o, stash).1
    ensures Accounted(AccountStep(s, o, stash).0, AccountStep(s, o, stash).1) && stash <= AccountStep(s, o, stash).1
    ensures Accounted(EmailStep(s, o, stash).0, EmailStep(s, o, stash).1) && stash <= EmailStep(s, o, stash).1
  {
    hide TakesSolid, Accounted, Rrn, Card, Phone, Account, Email, Pass, KeepsDate, Matches, SolidSpan, AllSolid, PhoneText, EmailText, Replacing;
    NumbersAreSolid();
    TextsAreSolid();
    forall m | SolidSpan(s, m) ensures AllSolid(PhoneText(s, o.full)(m)) && AllSolid(Replacing(s, EmailText(o.full))(m)) {
      PhoneIsSolid(s, m, o.full);
      EmailIsSolid(s, m, o.full);
    }
    PassAccounts(Rrn(), IsPlain, s, Chosen(RRN in o.kinds, Constantly([MARK_RRN])), stash);
    PassAccounts(Card(), IsPlain, s, Chosen(CARD in o.kinds, Constantly([MARK_CARD])), stash);
    PassAccounts(Phone(), IsPlain, s, Chosen(PHONE in o.kinds, PhoneText(s, o.full)), stash);
    PassAccounts(Account(), IsPlain, s, DecideAccount(s, ACCOUNT in o.kinds, o.preserveDates, o.birth), stash);
    PassAccounts(Email(), IsPlain, s, Chosen(EMAIL in o.kinds, Replacing(s, EmailText(o.full))), stash);
  }

  lemma PlainIsAccounted(text: string)
    requires !HasPrivate(text)
    ensures Accounted(text, []) && Restored(text, []) == text
  {
    SolidIsSealed(text, []);
    SolidHasNoHoles(text);
  }

  lemma FiveStepsAccount(text: string, o: Options)
    requires !HasPrivate(text)
    ensures Accounted(FiveSteps(text, o).0, FiveSteps(text, o).1)
  {
    hide Accounted, Restored, RrnStep, CardStep, PhoneStep, AccountStep, EmailStep, HasPrivate;
    PlainIsAccounted(text);
    var a := RrnStep(text, o, []);
    StepsAccount(text, o, []);
    var b := CardStep(a.0, o, a.1);
    StepsAccount(a.0, o, a.1);
    var c := PhoneStep(b.0, o, b.1);
    StepsAccount(b.0, o, b.1);
    var d := AccountStep(c.0, o, c.1);
    StepsAccount(c.0, o, c.1);
    StepsAccount(d.0, o, d.1);
  }

  lemma ChunksAreSolid()
    ensures TakesSolid(Chunk(), IsSolid)
  {
    MoreWidths();
    assert Only(Token(), IsSolid);
    assert Only(Link(), IsSolid);
  }

  lemma RunsAreSolid()
    ensures TakesSolid(Long(), IsSolid) && TakesSolid(Amex(), IsSolid) && TakesSolid(One(IsMark), IsSolid)
  {
    Widths();
  }

  /** The reinforcement and the spelling of marks leave the placeholders alone. */
  lemma LastPassesAccount(s: string, stash: seq<string>)
    requires Accounted(s, stash)
    ensures Accounted(Reinforced(s), stash) && Accounted(Spelled(s), stash)
  {
    hide TakesSolid, Accounted, Chunk, Long, Amex, Only, ReplaceAll, SolidSpan, AllSolid, HasDigit, Cut;
    ChunksAreSolid();
    RunsAreSolid();
    TextsAreSolid();
    forall m | SolidSpan(s, m) ensures AllSolid(Cut(s, m)) {
      CutIsSolid(s, m);
    }
    ReplacedAccounts(Chunk(), IsSolid, s, ChunkText(s), stash);
    ReplacedAccounts(Long(), IsSolid, ChunkPass(s), CardMark(), stash);
    ReplacedAccounts(Amex(), IsSolid, LongPass(ChunkPass(s)), CardMark(), stash);
    ReplacedAccounts(One(IsMark), IsSolid, s, MarkText(s), stash);
  }

  lemma CutIsSolid(s: string, m: Span)
    requires SolidSpan(s, m)
    ensures AllSolid(Cut(s, m))
  {
  }

  /** The text before placeholders are filled in. */
  function Masked(text: string, o: Options): string
  {
    var five := FiveSteps(text, o).0;
    Spelled(if CARD in o.kinds then Reinforced(five) else five)
  }

  /** Whatever kinds are chosen: the result is the masked text with its placeholders filled in, nothing else in it is
      private, and every match set aside because its kind was not chosen stands in it, whole. */
  lemma NothingHeldIsLost(text: string, o: Options)
    requires text != [] && !HasPrivate(text)
    ensures var stash := FiveSteps(text, o).1;
      && Sealed(Masked(text, o), |stash|) && Selective(text, o) == Some(Restored(Masked(text, o), stash))
      && forall k :: 0 <= k < |stash| ==> Within(stash[k], Selective(text, o).value)
  {
    hide FiveSteps, Reinforced, Spelled, Filled, HasPrivate, Restored, Sealed, Holes, Within;
    var five := FiveSteps(text, o);
    FiveStepsAccount(text, o);
    LastPassesAccount(five.0, five.1);
    LastPassesAccount(Reinforced(five.0), five.1);
    FilledIsRestored(Masked(text, o), five.1);
    forall k | 0 <= k < |five.1| ensures Within(five.1[k], Restored(Masked(text, o), five.1)) {
      HoleComesBack(Masked(text, o), five.1, k);
    }
  }

  // ---------------------------------------------------------------- marks are counted

  lemma StepsCount(s: string, o: Options, stash: seq<string>, c: char)
    requires IsMark(c)
    ensures CountOf(RrnStep(s, o, stash).0, c) == CountOf(s, c) + if c == MARK_RRN then RrnPuts(s, o) else 0
    ensures CountOf(CardStep(s, o, stash).0, c) == CountOf(s, c) + if c == MARK_CARD then CardPuts(s, o) else 0
    ensures CountOf(PhoneStep(s, o, stash).0, c) == CountOf(s, c)
    ensures CountOf(AccountStep(s, o, stash).0, c) == CountOf(s, c)
    ensures CountOf(EmailStep(s, o, stash).0, c) == CountOf(s, c)
  {
    hide TakesSolid, Rrn, Card, Phone, Account, Email, Pass, KeepsDate, Matches, CountOf, Cut, MaskPhone, MaskEmail, Puts, IsPlain;
    NumbersAreSolid();
    MarksArePrivate(c);
    CountText(c, MARK_RRN);
    CountText(c, MARK_CARD);
    CountNone(TEXT_ACCOUNT, c);
    forall m: Span | c !in Cut(s, m) ensures CountOf(PhoneText(s, o.full)(m), c) == 0 && CountOf(Replacing(s, EmailText(o.full))(m), c) == 0 {
      PhoneKeepsMarks(Cut(s, m), c);
      EmailKeepsMarks(Cut(s, m), c);
      CountNone(PhoneText(s, o.full)(m), c);
      CountNone(Replacing(s, EmailText(o.full))(m), c);
    }
    PassCounts(Rrn(), s, Chosen(RRN in o.kinds, Constantly([MARK_RRN])), stash, c, if c == MARK_RRN then 1 else 0);
    PassCounts(Card(), s, Chosen(CARD in o.kinds, Constantly([MARK_CARD])), stash, c, if c == MARK_CARD then 1 else 0);
    PassCounts(Phone(), s, Chosen(PHONE in o.kinds, PhoneText(s, o.full)), stash, c, 0);
    PassCounts(Account(), s, DecideAccount(s, ACCOUNT in o.kinds, o.preserveDates, o.birth), stash, c, 0);
    PassCounts(Email(), s, Chosen(EMAIL in o.kinds, Replacing(s, EmailText(o.full))), stash, c, 0);
  }

  /** After the five steps the text holds one mark for each resident number and card that was replaced. */
  lemma FiveStepsCount(text: string, o: Options)
    requires !HasPrivate(text)
    ensures CountOf(FiveSteps(text, o).0, MARK_RRN) == RrnPuts(text, o)
    ensures CountOf(FiveSteps(text, o).0, MARK_CARD) == CardPuts(RrnStep(text, o, []).0, o)
  {
    hide CountOf, RrnStep, CardStep, PhoneStep, AccountStep, EmailStep, RrnPuts, CardPuts;
    forall c | IsMark(c)
      ensures CountOf(FiveSteps(text, o).0, c) == (if c == MARK_RRN then RrnPuts(text, o) else CardPuts(RrnStep(text, o, []).0, o)) {
      var a := RrnStep(text, o, []);
      StepsCount(text, o, [], c);
      var b := CardStep(a.0, o, a.1);
      StepsCount(a.0, o, a.1, c);
      var d := PhoneStep(b.0, o, b.1);
      StepsCount(b.0, o, b.1, c);
      var e := AccountStep(d.0, o, d.1);
      StepsCount(d.0, o, d.1, c);
      StepsCount(e.0, o, e.1, c);
      CountNone(text, c);
    }
  }

  // ---------------------------------------------------------------- no kinds

  lemma {:induction false} CountedNone(s: string, c: char)
    requires CountOf(s, c) == 0
    ensures c !in s
  {
    if s != [] {
      CountedNone(s[1..], c);
    }
  }

  lemma {:induction false} NothingFound(re: Re, s: string, pos: nat)
    requires pos <= |s| && Width(re) > 0 && forall i :: pos <= i <= |s| ==> Ends(re, s, i) == []
    ensures Matches(re, s, pos) == []
  {
  }

  lemma NoMarksToSpell(s: string)
    requires forall k :: 0 <= k < |s| ==> !IsMark(s[k])
    ensures Spelled(s) == s
  {
    hide Splice, Matches;
    Unfolded(One(IsMark), s, MarkText(s));
    NothingFound(One(IsMark), s, 0);
    SpliceNothing(s, 0, MarkText(s));
    assert s[0..] == s;
  }

  lemma FiveStepsHold(text: string, o: Options)
    requires o.kinds == {} && !HasPrivate(text)
    ensures SameText(text, [], FiveSteps(text, o).0, FiveSteps(text, o).1) && Restored(text, []) == text
  {
    hide Sealed, Restored, RrnStep, CardStep, PhoneStep, AccountStep, EmailStep, HasPrivate, Holes;
    PlainIsAccounted(text);
    var a := RrnStep(text, o, []);
    UnchosenStepHolds(text, o, []);
    var b := CardStep(a.0, o, a.1);
    UnchosenStepHolds(a.0, o, a.1);
    var c := PhoneStep(b.0, o, b.1);
    UnchosenStepHolds(b.0, o, b.1);
    var d := AccountStep(c.0, o, c.1);
    UnchosenStepHolds(c.0, o, c.1);
    UnchosenStepHolds(d.0, o, d.1);
  }

  /** With no kinds chosen, text without private characters comes back unchanged. */
  lemma NoKindsIsIdentity(text: string, o: Options)
    requires o.kinds == {} && !HasPrivate(text)
    ensures Selective(text, o) == Some(text)
  {
    hide Sealed, Restored, FiveSteps, HasPrivate, Spelled, Filled, CountOf, RrnPuts, CardPuts, RrnStep;
    if text != [] {
      FiveStepsHold(text, o);
      var five := FiveSteps(text, o);
      FiveStepsCount(text, o);
      NoPuts(text, o);
      NoPuts(RrnStep(text, o, []).0, o);
      CountedNone(five.0, MARK_RRN);
      CountedNone(five.0, MARK_CARD);
      NoMarksToSpell(five.0);
      FilledIsRestored(five.0, five.1);
    }
  }

  // ---------------------------------------------------------------- all kinds

  lemma FiveStepsPut(text: string, o: Options)
    requires o.kinds == AllKinds()
    ensures FiveSteps(text, o) == (FivePasses(text, true, o.full, o.preserveDates, o.birth), [])
  {
    hide RrnStep, CardStep, PhoneStep, AccountStep, EmailStep, RrnPass, CardPass, PhonePass, AccountPass, EmailPass;
    ChosenStepPuts(text, o, []);
    ChosenStepPuts(RrnPass(text, true), o, []);
    ChosenStepPuts(CardPass(RrnPass(text, true), true), o, []);
    var c := PhonePass(CardPass(RrnPass(text, true), true), o.full);
    ChosenStepPuts(c, o, []);
    ChosenStepPuts(AccountPass(c, o.preserveDates, o.birth), o, []);
  }

  /** With all kinds chosen, the selective path gives the text of the default path. */
  lemma AllKindsIsDefault(text: string, o: Options)
    requires o.kinds == AllKinds() && text != [] && !HasPrivate(text)
    ensures Selective(text, o) == Some(Spelled(Reinforced(FivePasses(text, true, o.full, o.preserveDates, o.birth))))
  {
    hide FiveSteps, FivePasses, Reinforced, Spelled, Filled, HasPrivate, Restored, Sealed, Within;
    FiveStepsPut(text, o);
    NothingHeldIsLost(text, o);
    SealedByNone(Masked(text, o), []);
  }

  // ---------------------------------------------------------------- the path as it runs

  /** The numbers of replacements that the five steps make. */
  function RrnPuts(s: string, o: Options): nat
  {
    Widths();
    Puts(Matches(Rrn(), s, 0), Chosen(RRN in o.kinds, Constantly([MARK_RRN])))
  }

  function CardPuts(s: string, o: Options): nat
  {
    Widths();
    Puts(Matches(Card(), s, 0), Chosen(CARD in o.kinds, Constantly([MARK_CARD])))
  }

  function PhonePuts(s: string, o: Options): nat
  {
    MoreWidths();
    Puts(Matches(Phone(), s, 0), Chosen(PHONE in o.kinds, PhoneText(s, o.full)))
  }

  function AccountPuts(s: string, o: Options): nat
  {
    Widths();
    Puts(Matches(Account(), s, 0), DecideAccount(s, ACCOUNT in o.kinds, o.preserveDates, o.birth))
  }

  function EmailPuts(s: string, o: Options): nat
  {
    EmailIsWide();
    Puts(Matches(Email(), s, 0), Chosen(EMAIL in o.kinds, Replacing(s, EmailText(o.full))))
  }

  method EmailTurn(s: string, o: Options, vault: Vault) returns (out: string, put: nat)
    modifies vault
    ensures (out, vault.stash) == EmailStep(s, o, old(vault.stash)) && put == EmailPuts(s, o)
  {
    hide Email, Matches, Run, Puts, ReplaceAll;
    EmailIsWide();
    MatchesInside(Email(), s, 0);
    var same, found := ReplaceEmails(s, (m: string) => m);
    out, put := vault.ReplaceMatches(s, found, Chosen(EMAIL in o.kinds, Replacing(s, EmailText(o.full))));
  }

  method FiveTurns(text: string, o: Options, vault: Vault, counts: Tally) returns (masked: string)
    requires vault.stash == [] && counts.rrn == counts.card == counts.account == counts.phone == counts.email == 0
    modifies vault, counts
    ensures (masked, vault.stash) == FiveSteps(text, o)
    ensures counts.rrn == RrnPuts(text, o)
    ensures var a := RrnStep(text, o, []);
      && counts.card == CardPuts(a.0, o)
      && var b := CardStep(a.0, o, a.1);
      && counts.phone == PhonePuts(b.0, o)
      && var c := PhoneStep(b.0, o, b.1);
      && counts.account == AccountPuts(c.0, o)
      && var d := AccountStep(c.0, o, c.1);
      && counts.email == EmailPuts(d.0, o)
  {
    hide Width, Rrn, Card, Phone, Account, Pass, Matches, Puts, Chosen, DecideAccount, EmailStep, EmailPuts, Constantly, PhoneText;
    Widths();
    MoreWidths();
    var put;
    masked, put := Step(Rrn(), text, Chosen(RRN in o.kinds, Constantly([MARK_RRN])), vault);
    counts.rrn := counts.rrn + put;
    masked, put := Step(Card(), masked, Chosen(CARD in o.kinds, Constantly([MARK_CARD])), vault);
    counts.card := counts.card + put;
    masked, put := Step(Phone(), masked, Chosen(PHONE in o.kinds, PhoneText(masked, o.full)), vault);
    counts.phone := counts.phone + put;
    masked, put := Step(Account(), masked, DecideAccount(masked, ACCOUNT in o.kinds, o.preserveDates, o.birth), vault);
    counts.account := counts.account + put;
    masked, put := EmailTurn(masked, o, vault);
    counts.email := counts.email + put;
  }

  /** A kind that was not chosen is never replaced. */
  lemma NoPuts(s: string, o: Options)
    ensures RRN !in o.kinds ==> RrnPuts(s, o) == 0
    ensures CARD !in o.kinds ==> CardPuts(s, o) == 0
    ensures PHONE !in o.kinds ==> PhonePuts(s, o) == 0
    ensures ACCOUNT !in o.kinds ==> AccountPuts(s, o) == 0
    ensures EMAIL !in o.kinds ==> EmailPuts(s, o) == 0
  {
    hide Matches, Puts, KeepsDate, Width, Rrn, Card, Phone, Account, Email;
    Widths();
    MoreWidths();
    EmailIsWide();
    NothingPut(Matches(Rrn(), s, 0), Chosen(false, Constantly([MARK_RRN])));
    NothingPut(Matches(Card(), s, 0), Chosen(false, Constantly([MARK_CARD])));
    NothingPut(Matches(Phone(), s, 0), Chosen(false, PhoneText(s, o.full)));
    NothingPut(Matches(Account(), s, 0), DecideAccount(s, false, o.preserveDates, o.birth));
    NothingPut(Matches(Email(), s, 0), Chosen(false, Replacing(s, EmailText(o.full))));
  }

  lemma ReplacedHasNone(re: Re, s: string, f: Span -> string, c: char)
    requires Width(re) > 0 && c !in s && forall m: Span :: c !in Cut(s, m) ==> CountOf(f(m), c) == 0
    ensures CountOf(ReplaceAll(re, s, f), c) == 0
  {
    hide CountOf, ReplaceAll, Matches;
    CountNone(s, c);
    CountReplaced(re, s, f, c);
    EvenGain(s, Matches(re, s, 0), f, c, 0);
  }

  /** The reinforcement makes no mark of a resident number. */
  lemma ReinforcedHasNone(s: string)
    requires CountOf(s, MARK_RRN) == 0
    ensures CountOf(Reinforced(s), MARK_RRN) == 0
  {
    hide CountOf, ReplaceAll, Chunk, LongPass, AmexPass, Matches, HasDigit, Cut;
    MoreWidths();
    CountedNone(s, MARK_RRN);
    CountText(MARK_RRN, MARK_CARD);
    forall m: Span | MARK_RRN !in Cut(s, m) ensures CountOf(ChunkText(s)(m), MARK_RRN) == 0 {
      CountNone(Cut(s, m), MARK_RRN);
    }
    ReplacedHasNone(Chunk(), s, ChunkText(s), MARK_RRN);
    LongMarks(ChunkPass(s), MARK_RRN);
    AmexMarks(LongPass(ChunkPass(s)), MARK_RRN);
  }

  /** What the counts come to. */
  ghost predicate Counted(text: string, o: Options, rrn: int, card: int, phone: int, account: int, email: int)
  {
    var five := FiveSteps(text, o).0;
    var marked := if CARD in o.kinds then Reinforced(five) else five;
    && rrn == CountOf(marked, MARK_RRN) && card == CountOf(marked, MARK_CARD)
    && (RRN !in o.kinds ==> rrn == 0) && (CARD !in o.kinds ==> card == 0) && (PHONE !in o.kinds ==> phone == 0)
    && (ACCOUNT !in o.kinds ==> account == 0) && (EMAIL !in o.kinds ==> email == 0)
  }

  // ---------------------------------------------------------------- what the steps do to the matches they find

  /** A step over the matches of `re`: each is met with a decision that `meets` allows, `n` of them replaced. */
  ghost predicate Handles(re: Re, s: string, stash: seq<string>, out: (string, seq<string>), meets: (Span, Decision) -> bool, n: int)
  {
    exists spans: seq<Span>, decide: Span -> Decision :: HandlesBy(re, s, stash, out, meets, n, spans, decide)
  }

  ghost predicate HandlesBy(re: Re, s: string, stash: seq<string>, out: (string, seq<string>), meets: (Span, Decision) -> bool, n: int,
                            spans: seq<Span>, decide: Span -> Decision)
  {
    && Found(re, s, 0, spans) && out == Run(s, spans, 0, decide, stash) && n == Puts(spans, decide)
    && forall k :: 0 <= k < |spans| ==> meets(spans[k], decide(spans[k]))
  }

  lemma Handling(re: Re, s: string, stash: seq<string>, decide: Span -> Decision, meets: (Span, Decision) -> bool)
    requires Width(re) > 0
    requires forall m: Span :: Preferred(re, s, m) ==> meets(m, decide(m))
    ensures Handles(re, s, stash, Pass(re, s, decide, stash), meets, Puts(Matches(re, s, 0), decide))
  {
    hide Found, Preferred, Matches, Run, Puts;
    MatchesFound(re, s, 0);
    var spans := Matches(re, s, 0);
    AllPreferred(re, s, spans);
    assert HandlesBy(re, s, stash, Pass(re, s, decide, stash), meets, Puts(spans, decide), spans, decide);
  }

  /** A match of a chosen kind is replaced by what goes in for it; any other is set aside. */
  ghost function Meets(chosen: bool, goes: (Span, string) -> bool): (Span, Decision) -> bool
  {
    (m: Span, d: Decision) => if chosen then d.Put? && goes(m, d.text) else d == Hold
  }

  /** The same for accounts, but a date that stays is never touched. */
  ghost function MeetsAccount(s: string, o: Options): (Span, Decision) -> bool
  {
    (m: Span, d: Decision) =>
      d == if DateStays(s, m, o.preserveDates, o.birth) then Keep else if ACCOUNT in o.kinds then Put(TEXT_ACCOUNT) else Hold
  }

  lemma StepsHandle(s: string, o: Options, stash: seq<string>)
    ensures Handles(Rrn(), s, stash, RrnStep(s, o, stash), Meets(RRN in o.kinds, Label([MARK_RRN])), RrnPuts(s, o))
    ensures Handles(Card(), s, stash, CardStep(s, o, stash), Meets(CARD in o.kinds, Label([MARK_CARD])), CardPuts(s, o))
  {
    hide Rrn, Card, Pass, Matches, Handles, Preferred, Puts;
    Widths();
    Handling(Rrn(), s, stash, Chosen(RRN in o.kinds, Constantly([MARK_RRN])), Meets(RRN in o.kinds, Label([MARK_RRN])));
    Handling(Card(), s, stash, Chosen(CARD in o.kinds, Constantly([MARK_CARD])), Meets(CARD in o.kinds, Label([MARK_CARD])));
  }

  lemma PhoneStepHandles(s: string, o: Options, stash: seq<string>)
    ensures Handles(Phone(), s, stash, PhoneStep(s, o, stash), Meets(PHONE in o.kinds, Phones(s, o.full)), PhonePuts(s, o))
  {
    hide Phone, Pass, Matches, Handles, Preferred, Puts, Cut, PhoneGoes, MaskPhone;
    MoreWidths();
    forall m: Span | Preferred(Phone(), s, m) ensures PhoneGoes(o.full, Cut(s, m), PhoneText(s, o.full)(m)) {
      PhoneFits(s, m, o.full);
    }
    Handling(Phone(), s, stash, Chosen(PHONE in o.kinds, PhoneText(s, o.full)), Meets(PHONE in o.kinds, Phones(s, o.full)));
  }

  lemma AccountStepHandles(s: string, o: Options, stash: seq<string>)
    ensures Handles(Account(), s, stash, AccountStep(s, o, stash), MeetsAccount(s, o), AccountPuts(s, o))
  {
    hide Account, Pass, Matches, Handles, Preferred, Puts, KeepsDate, DateStays;
    Widths();
    forall m: Span ensures KeepsDate(s, m, o.preserveDates, o.birth) <==> DateStays(s, m, o.preserveDates, o.birth) {
      KeepsWhatStays(s, m, o.preserveDates, o.birth);
    }
    Handling(Account(), s, stash, DecideAccount(s, ACCOUNT in o.kinds, o.preserveDates, o.birth), MeetsAccount(s, o));
  }

  lemma EmailStepHandles(s: string, o: Options, stash: seq<string>)
    ensures Handles(Email(), s, stash, EmailStep(s, o, stash), Meets(EMAIL in o.kinds, Emails(s, o.full)), EmailPuts(s, o))
  {
    hide Email, Pass, Matches, Handles, Preferred, Puts, Cut, EmailGoes, MaskEmail;
    EmailIsWide();
    var f := Replacing(s, EmailText(o.full));
    forall m: Span | Preferred(Email(), s, m) ensures EmailGoes(o.full, Cut(s, m), f(m)) {
      EmailFits(s, m, o.full);
    }
    Handling(Email(), s, stash, Chosen(EMAIL in o.kinds, f), Meets(EMAIL in o.kinds, Emails(s, o.full)));
  }

  ghost predicate StepsVia(text: string, o: Options, out: (string, seq<string>), hits: Hits,
                           a: (string, seq<string>), b: (string, seq<string>), c: (string, seq<string>), d: (string, seq<string>))
  {
    && Handles(Rrn(), text, [], a, Meets(RRN in o.kinds, Label([MARK_RRN])), hits.rrn)
    && Handles(Card(), a.0, a.1, b, Meets(CARD in o.kinds, Label([MARK_CARD])), hits.card)
    && Handles(Phone(), b.0, b.1, c, Meets(PHONE in o.kinds, Phones(b.0, o.full)), hits.phone)
    && Handles(Account(), c.0, c.1, d, MeetsAccount(c.0, o), hits.account)
    && Handles(Email(), d.0, d.1, out, Meets(EMAIL in o.kinds, Emails(d.0, o.full)), hits.email)
  }

  ghost predicate SelectsVia(text: string, o: Options, masked: string, hits: Hits, five: (string, seq<string>), marked: string, spelled: string)
  {
    && (exists a, b, c, d :: StepsVia(text, o, five, hits, a, b, c, d))
    && (if CARD in o.kinds then Reinforces(five.0, marked) else marked == five.0)
    && Spells(marked, spelled)
    && masked == Filled(spelled, five.1)
  }

  /** What selective masking does: the chosen kinds are hidden and the others set aside, in the order of the default path;
      then come the reinforcement, if cards are chosen, the spelling of marks and the filling in of what was set aside. */
  ghost predicate SelectsAll(text: string, o: Options, masked: string, hits: Hits)
  {
    exists five, marked, spelled :: SelectsVia(text, o, masked, hits, five, marked, spelled)
  }

  lemma StepsVisit(text: string, o: Options, hits: Hits, a: (string, seq<string>), b: (string, seq<string>), c: (string, seq<string>),
                   d: (string, seq<string>))
    requires a == RrnStep(text, o, []) && b == CardStep(a.0, o, a.1) && c == PhoneStep(b.0, o, b.1) && d == AccountStep(c.0, o, c.1)
    requires HitsAre(text, o, hits)
    ensures StepsVia(text, o, FiveSteps(text, o), hits, a, b, c, d)
  {
    hide Handles, RrnStep, CardStep, PhoneStep, AccountStep, EmailStep, RrnPuts, CardPuts, PhonePuts, AccountPuts, EmailPuts,
      Meets, MeetsAccount, Label, Phones, Emails;
    StepsHandle(text, o, []);
    StepsHandle(a.0, o, a.1);
    PhoneStepHandles(b.0, o, b.1);
    AccountStepHandles(c.0, o, c.1);
    EmailStepHandles(d.0, o, d.1);
  }

  lemma FiveHandle(text: string, o: Options, hits: Hits)
    requires HitsAre(text, o, hits)
    ensures exists a, b, c, d :: StepsVia(text, o, FiveSteps(text, o), hits, a, b, c, d)
  {
    hide *;
    var a := RrnStep(text, o, []);
    var b := CardStep(a.0, o, a.1);
    var c := PhoneStep(b.0, o, b.1);
    var d := AccountStep(c.0, o, c.1);
    StepsVisit(text, o, hits, a, b, c, d);
  }

  ghost predicate HitsAre(text: string, o: Options, hits: Hits)
  {
    var a := RrnStep(text, o, []);
    var b := CardStep(a.0, o, a.1);
    var c := PhoneStep(b.0, o, b.1);
    var d := AccountStep(c.0, o, c.1);
    && hits.rrn == RrnPuts(text, o) && hits.card == CardPuts(a.0, o) && hits.phone == PhonePuts(b.0, o)
    && hits.account == AccountPuts(c.0, o) && hits.email == EmailPuts(d.0, o)
  }

  lemma SelectionDoes(text: string, o: Options, hits: Hits)
    requires text != [] && !HasPrivate(text) && HitsAre(text, o, hits)
    ensures Selective(text, o).Some? && SelectsAll(text, o, Selective(text, o).value, hits)
  {
    hide FiveSteps, HasPrivate, Reinforced, Reinforces, Spelled, Spells, Filled, StepsVia, HitsAre;
    var five := FiveSteps(text, o);
    var marked := if CARD in o.kinds then Reinforced(five.0) else five.0;
    FiveHandle(text, o, hits);
    ReinforcedReinforces(five.0);
    SpelledSpells(marked);
    assert SelectsVia(text, o, Filled(Spelled(marked), five.1), hits, five, marked, Spelled(marked));
  }

  /** `maskPiiSelective`. */
  method MaskSelective(text: string, o: Options) returns (masked: Option<string>, counts: Tally)
    ensures fresh(counts) && masked == Selective(text, o)
    ensures masked.None? <==> text != [] && HasPrivate(text)
    ensures masked.Some? && text != [] ==>
      exists hits :: SelectsAll(text, o, masked.value, hits)
        && hits.phone == counts.phone && hits.account == counts.account && hits.email == counts.email
    ensures masked.Some? && text != [] ==> Counted(text, o, counts.rrn, counts.card, counts.phone, counts.account, counts.email)
    ensures masked.Some? && text != [] ==>
      forall k :: 0 <= k < |FiveSteps(text, o).1| ==> Within(FiveSteps(text, o).1[k], masked.value)
    ensures o.kinds == {} && masked.Some? ==> masked == Some(text)
    ensures o.kinds == AllKinds() && masked.Some? && text != [] ==>
      masked == Some(Spelled(Reinforced(FivePasses(text, true, o.full, o.preserveDates, o.birth))))
  {
    hide *;
    counts := new Tally();
    if text == [] {
      EmptySelection(o);
      return Some(text), counts;
    }
    if HasPrivate(text) {
      RefusedSelection(text, o);
      return None, counts;
    }
    var vault := new Vault();
    var five := FiveTurns(text, o, vault, counts);
    ghost var hits := Hits(counts.rrn, counts.card, counts.phone, counts.account, counts.email);
    HitsFound(text, o, hits);
    var out := five;
    if CARD in o.kinds {
      out := ReinforceCard(out, counts);
    }
    CountsAgree(text, o, counts.rrn, counts.card, counts.phone, counts.account, counts.email);
    out := Spelled(out);
    masked := Some(Filled(out, vault.stash));
    SelectionMeans(text, o, five, vault.stash);
    SelectionDoes(text, o, hits);
  }

  lemma HitsFound(text: string, o: Options, hits: Hits)
    requires hits.rrn == RrnPuts(text, o)
    requires var a := RrnStep(text, o, []);
      && hits.card == CardPuts(a.0, o)
      && var b := CardStep(a.0, o, a.1);
      && hits.phone == PhonePuts(b.0, o)
      && var c := PhoneStep(b.0, o, b.1);
      && hits.account == AccountPuts(c.0, o)
      && var d := AccountStep(c.0, o, c.1);
      && hits.email == EmailPuts(d.0, o)
    ensures HitsAre(text, o, hits)
  {
    hide RrnStep, CardStep, PhoneStep, AccountStep, EmailStep, RrnPuts, CardPuts, PhonePuts, AccountPuts, EmailPuts;
  }

  lemma EmptySelection(o: Options)
    ensures Selective([], o) == Some([]) && !HasPrivate([])
  {
  }

  lemma RefusedSelection(text: string, o: Options)
    requires text != [] && HasPrivate(text)
    ensures Selective(text, o) == None
  {
    hide FiveSteps, HasPrivate;
  }

  lemma SelectionMeans(text: string, o: Options, five: string, stash: seq<string>)
    requires text != [] && !HasPrivate(text) && (five, stash) == FiveSteps(text, o)
    ensures Selective(text, o) == Some(Filled(Spelled(if CARD in o.kinds then Reinforced(five) else five), stash))
    ensures forall k :: 0 <= k < |stash| ==> Within(stash[k], Selective(text, o).value)
    ensures o.kinds == {} ==> Selective(text, o) == Some(text)
    ensures o.kinds == AllKinds() ==>
      Selective(text, o) == Some(Spelled(Reinforced(FivePasses(text, true, o.full, o.preserveDates, o.birth))))
  {
    hide FiveSteps, FivePasses, Reinforced, Spelled, Filled, HasPrivate, Within, Sealed;
    NothingHeldIsLost(text, o);
    if o.kinds == {} {
      NoKindsIsIdentity(text, o);
    }
    if o.kinds == AllKinds() {
      AllKindsIsDefault(text, o);
    }
  }

  /** The counts of the five steps, moved as the marks move in the reinforcement. */
  lemma CountsAgree(text: string, o: Options, rrn: int, card: int, phone: int, account: int, email: int)
    requires !HasPrivate(text)
    requires var a := RrnStep(text, o, []);
      var b := CardStep(a.0, o, a.1);
      var c := PhoneStep(b.0, o, b.1);
      var d := AccountStep(c.0, o, c.1);
      phone == PhonePuts(b.0, o) && account == AccountPuts(c.0, o) && email == EmailPuts(d.0, o)
    requires var five := FiveSteps(text, o).0;
      var marked := if CARD in o.kinds then Reinforced(five) else five;
      && rrn == RrnPuts(text, o) + CountOf(marked, MARK_RRN) - CountOf(five, MARK_RRN)
      && card == CardPuts(RrnStep(text, o, []).0, o) + CountOf(marked, MARK_CARD) - CountOf(five, MARK_CARD)
    ensures Counted(text, o, rrn, card, phone, account, email)
  {
    hide CountOf, RrnStep, CardStep, PhoneStep, AccountStep, EmailStep, RrnPuts, CardPuts, PhonePuts, AccountPuts, EmailPuts, Reinforced,
      FiveSteps, HasPrivate;
    FiveStepsCount(text, o);
    forall s ensures (PHONE !in o.kinds ==> PhonePuts(s, o) == 0) && (ACCOUNT !in o.kinds ==> AccountPuts(s, o) == 0)
      && (EMAIL !in o.kinds ==> EmailPuts(s, o) == 0) {
      NoPuts(s, o);
    }
    NoPuts(text, o);
    NoPuts(RrnStep(text, o, []).0, o);
    if RRN !in o.kinds {
      ReinforcedHasNone(FiveSteps(text, o).0);
    }
  }
}
