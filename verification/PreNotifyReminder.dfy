/** What happens to one loan a tick messages about, and how often its parties
    hear of one payment. A visit asks the borrower's rails, then the lender's,
    then decides whether the checkpoint is finished. */
module PreNotifyReminder {
  import opened Wrappers

  datatype Sub = Sub(optedOut: bool, push: bool, tg: bool)

  /** The subscriber row; when its query fails, an older query is tried, and a
      failure of that one is not caught. */
  datatype Lookup = Row(sub: Option<Sub>) | Legacy(row: Option<Sub>) | LookupThrew

  datatype PushReply = PushAccepted | PushFailed | NotRequested | PushThrew
  datatype TgReply = TgAccepted | TgRefused | TgTransient | TgUnknown | TgThrew

  /** What the deployment has configured. */
  datatype Rails = Rails(signer: bool, token: bool)

  /** Everything the outside answers for one party; a rail not used is ignored. */
  datatype Reply = Reply(lookup: Lookup, push: PushReply, tg: TgReply)

  datatype Outcome = Outcome(
    optedOut: bool, attempted: bool, delivered: bool, unconfirmed: nat, refused: nat, transient: nat,
    pushUnconfigured: bool, tgUnconfigured: bool)

  const NOTHING := Outcome(false, false, false, 0, 0, 0, false, false)

  /** The legacy row has no opt-out column: it counts as opted in. */
  function SubOf(l: Lookup): Option<Sub> {
    match l
    case Row(sub) => sub
    case Legacy(row) => if row.Some? then Some(row.value.(optedOut := false)) else None
    case LookupThrew => None
  }

  predicate UsesPush(e: Rails, r: Reply) {
    SubOf(r.lookup).Some? && !SubOf(r.lookup).value.optedOut && SubOf(r.lookup).value.push && e.signer
  }

  predicate UsesTg(e: Rails, r: Reply) {
    SubOf(r.lookup).Some? && !SubOf(r.lookup).value.optedOut && SubOf(r.lookup).value.tg && e.token
  }

  function Count(b: bool): nat { if b then 1 else 0 }

  /** The facts the lane keeps about one party. */
  function OutcomeOf(e: Rails, r: Reply): Outcome {
    var s := SubOf(r.lookup);
    if s.None? then NOTHING
    else if s.value.optedOut then NOTHING.(optedOut := true)
    else
      var push, tg := UsesPush(e, r), UsesTg(e, r);
      Outcome(false,
              (push && (r.push.PushAccepted? || r.push.PushFailed?)) || tg,
              (push && r.push.PushAccepted?) || (tg && r.tg.TgAccepted?),
              Count(push && r.push.PushFailed?) + Count(tg && (r.tg.TgUnknown? || r.tg.TgThrew?)),
              Count(tg && r.tg.TgRefused?), Count(tg && r.tg.TgTransient?),
              s.value.push && (!e.signer || r.push.NotRequested?), s.value.tg && !e.token)
  }

  /** What the lane charges for one party. */
  function CostOf(e: Rails, r: Reply): (c: nat)
    ensures c <= 4
  {
    (if r.lookup.Row? then 1 else 2)
    + Count(UsesPush(e, r) && (r.push.PushAccepted? || r.push.PushFailed?)) + Count(UsesTg(e, r))
  }

  predicate Owed(o: Outcome) { o.optedOut || o.transient > 0 || o.pushUnconfigured || o.tgUnconfigured }

  predicate StampDecision(borrower: Outcome, lender: Outcome) {
    var reached := borrower.delivered || lender.delivered;
    var uncertain := borrower.unconfirmed > 0 || lender.unconfirmed > 0;
    !((Owed(borrower) || Owed(lender)) && !reached && !uncertain)
  }

  // --------------------------------------------------------- one visit

  /** One loan messaged about in one tick. `stampLanded`: its stamp, if any. */
  datatype Visit = Visit(loan: (int, int), checkpoint: int, rails: Rails, borrower: Reply, lender: Reply, stampLanded: bool)

  /** A message may have reached this party: accepted, or its fate is unknown. */
  predicate MayHaveReached(e: Rails, r: Reply) {
    || (UsesPush(e, r) && !r.push.NotRequested?)
    || (UsesTg(e, r) && (r.tg.TgAccepted? || r.tg.TgUnknown? || r.tg.TgThrew?))
  }

  predicate LenderAsked(v: Visit) { !v.borrower.lookup.LookupThrew? }

  predicate Messages(v: Visit) {
    MayHaveReached(v.rails, v.borrower) || (LenderAsked(v) && MayHaveReached(v.rails, v.lender))
  }

  predicate Stamps(v: Visit) {
    && LenderAsked(v) && !v.lender.lookup.LookupThrew?
    && StampDecision(OutcomeOf(v.rails, v.borrower), OutcomeOf(v.rails, v.lender)) && v.stampLanded
  }

  predicate PushThrows(e: Rails, r: Reply) { UsesPush(e, r) && r.push.PushThrew? }

  /** Someone may have been told something the lane's own facts show. */
  predicate Noticed(e: Rails, r: Reply) { OutcomeOf(e, r).delivered || OutcomeOf(e, r).unconfirmed > 0 }

  lemma NoticedUnlessThrown(e: Rails, r: Reply)
    ensures MayHaveReached(e, r) <==> Noticed(e, r) || PushThrows(e, r)
  {
  }

  /** The lender's row could be read, the stamp landed, and the message did not
      rest on throwing pushes alone while somebody was still owed. */
  predicate Settles(v: Visit) {
    && !v.lender.lookup.LookupThrew? && v.stampLanded
    && (Noticed(v.rails, v.borrower) || Noticed(v.rails, v.lender)
        || !(Owed(OutcomeOf(v.rails, v.borrower)) || Owed(OutcomeOf(v.rails, v.lender))))
  }

  /** A visit that may have told anybody leaves its checkpoint finished exactly
      when it settles. */
  lemma MessagedIsStampedIff(v: Visit)
    requires Messages(v)
    ensures Stamps(v) <==> Settles(v)
  {
    NoticedUnlessThrown(v.rails, v.borrower);
    NoticedUnlessThrown(v.rails, v.lender);
  }

  /** A visit whose rows could be read leaves the checkpoint open exactly when
      no push was tried that could have arrived unseen, nothing was delivered,
      nothing is unknown, and a party may still be reached later. */
  lemma LeftOpenIff(v: Visit)
    requires LenderAsked(v) && !v.lender.lookup.LookupThrew? && v.stampLanded
    requires !PushThrows(v.rails, v.borrower) && !PushThrows(v.rails, v.lender)
    ensures !Stamps(v) <==>
      !Messages(v) && (Owed(OutcomeOf(v.rails, v.borrower)) || Owed(OutcomeOf(v.rails, v.lender)))
  {
    NoticedUnlessThrown(v.rails, v.borrower);
    NoticedUnlessThrown(v.rails, v.lender);
  }

  // ---------------------------------------------------------- all visits

  /** What the stamp column last got from these visits. */
  function LastStamp(h: seq<Visit>, loan: (int, int)): Option<int>
    decreases |h|
  {
    if h == [] then None
    else
      var v := h[|h| - 1];
      if v.loan == loan && Stamps(v) then Some(v.checkpoint) else LastStamp(h[..|h| - 1], loan)
  }

  /** A loan is visited only while its stamp is not the checkpoint. */
  ghost predicate LegalVisits(h: seq<Visit>) {
    forall j :: 0 <= j < |h| ==> LastStamp(h[..j], h[j].loan) != Some(h[j].checkpoint)
  }

  ghost predicate Forward(h: seq<Visit>) {
    forall i, j :: 0 <= i < j < |h| && h[i].loan == h[j].loan ==> h[i].checkpoint <= h[j].checkpoint
  }

  lemma {:induction false} StampStays(h: seq<Visit>, i: nat, j: nat)
    requires Forward(h) && i < j <= |h| && Stamps(h[i])
    requires forall k :: i <= k < j && h[k].loan == h[i].loan ==> h[k].checkpoint == h[i].checkpoint
    ensures LastStamp(h[..j], h[i].loan) == Some(h[i].checkpoint)
    decreases j
  {
    assert h[..j][..j - 1] == h[..j - 1];
    if i < j - 1 { StampStays(h, i, j - 1); }
  }

  /** One reminder per checkpoint: a visit that settles is the last that can tell
      anybody of its loan and checkpoint, over any ticks. */
  lemma OneReminder(h: seq<Visit>, i: nat, j: nat)
    requires LegalVisits(h) && Forward(h)
    requires i < j < |h| && h[i].loan == h[j].loan && h[i].checkpoint == h[j].checkpoint
    requires Messages(h[i])
    ensures !Settles(h[i])
  {
    if Settles(h[i]) {
      MessagedIsStampedIff(h[i]);
      forall k | i <= k < j && h[k].loan == h[i].loan ensures h[k].checkpoint == h[i].checkpoint {
        assert h[k].loan == h[j].loan;
      }
      StampStays(h, i, j);
    }
  }

  /** Some continuation of the history tells somebody of `v`'s checkpoint again. */
  ghost predicate ToldAgain(h: seq<Visit>, v: Visit) {
    exists more, j :: LegalVisits(h + more) && Forward(h + more) && |h| <= j < |h + more| && Repeats((h + more)[j], v)
  }

  predicate Repeats(w: Visit, v: Visit) { w.loan == v.loan && w.checkpoint == v.checkpoint && Messages(w) }

  /** After a visit that may have told somebody, another may tell of the same
      checkpoint exactly when the visit did not settle. */
  lemma ToldAgainIff(h: seq<Visit>, v: Visit)
    requires h != [] && h[|h| - 1] == v && LegalVisits(h) && Forward(h) && Messages(v)
    ensures ToldAgain(h, v) <==> !Settles(v)
  {
    if ToldAgain(h, v) {
      var more, j :| LegalVisits(h + more) && Forward(h + more) && |h| <= j < |h + more| && Repeats((h + more)[j], v);
      OneReminder(h + more, |h| - 1, j);
    }
    if !Settles(v) {
      MessagedIsStampedIff(v);
      SameAgain(h, v);
      assert Repeats((h + [v])[|h|], v);
    }
  }

  /** The very same visit, once more. */
  lemma SameAgain(h: seq<Visit>, v: Visit)
    requires h != [] && h[|h| - 1] == v && LegalVisits(h) && Forward(h) && !Stamps(v)
    ensures LegalVisits(h + [v]) && Forward(h + [v])
  {
    assert LastStamp(h, v.loan) == LastStamp(h[..|h| - 1], v.loan);
    LegalMore(h, v);
    ForwardMore(h, v);
  }

  lemma LegalMore(h: seq<Visit>, v: Visit)
    requires LegalVisits(h) && LastStamp(h, v.loan) != Some(v.checkpoint)
    ensures LegalVisits(h + [v])
  {
    var g := h + [v];
    forall j | 0 <= j < |g| ensures LastStamp(g[..j], g[j].loan) != Some(g[j].checkpoint) {
      assert g[..j] == if j < |h| then h[..j] else h;
    }
  }

  lemma ForwardMore(h: seq<Visit>, v: Visit)
    requires Forward(h) && h != [] && h[|h| - 1] == v
    ensures Forward(h + [v])
  {
    var g := h + [v];
    forall i, j | 0 <= i < j < |g| && g[i].loan == g[j].loan ensures g[i].checkpoint <= g[j].checkpoint {
      if j == |h| && i < |h| - 1 { assert h[i].loan == h[|h| - 1].loan; }
    }
  }

  /** Two ways it happens. The lender's row cannot be read after the borrower was
      told: the exception skips the stamp. */
  lemma LenderFailureRepeats(loan: (int, int), checkpoint: int, rails: Rails, borrower: Reply, lender: Reply)
    requires MayHaveReached(rails, borrower) && lender.lookup.LookupThrew?
    ensures var v := Visit(loan, checkpoint, rails, borrower, lender, true);
      LegalVisits([v]) && ToldAgain([v], v)
  {
    var v := Visit(loan, checkpoint, rails, borrower, lender, true);
    FirstVisit(v);
    ToldAgainIff([v], v);
  }

  /** Or the only message was a push that threw, and the service put the other
      rail off: nothing seen delivered, somebody owed, so nothing is stamped. */
  lemma ThrownPushRepeats(loan: (int, int), checkpoint: int, lender: Reply)
    requires lender.lookup == Row(None)
    ensures var borrower := Reply(Row(Some(Sub(false, true, true))), PushThrew, TgTransient);
      var v := Visit(loan, checkpoint, Rails(true, true), borrower, lender, true);
      LegalVisits([v]) && ToldAgain([v], v)
  {
    var borrower := Reply(Row(Some(Sub(false, true, true))), PushThrew, TgTransient);
    var v := Visit(loan, checkpoint, Rails(true, true), borrower, lender, true);
    FirstVisit(v);
    ToldAgainIff([v], v);
  }

  lemma FirstVisit(v: Visit)
    ensures LegalVisits([v]) && Forward([v])
  {
    assert [v][..0] == [];
  }
}
