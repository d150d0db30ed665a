/** The key generation over every interleaving of messages: honest dealers qualify, qualified dealers were honest. */
module DkgSafety {
  import opened Zq
  import opened Outcome
  import opened Lagrange
  import opened Feldman
  import opened Dkg

  datatype Event = Event(height: int, msg: Msg)

  /** Heights never go back. */
  ghost predicate Ordered(tr: seq<Event>) {
    forall i, j :: 0 <= i < j < |tr| ==> tr[i].height <= tr[j].height
  }

  /** The chain after the first `k` transactions. */
  ghost function After(signed: Signed, ch: Chain, tr: seq<Event>, k: nat): (r: Chain)
    requires ChainWf(ch) && k <= |tr|
    ensures ChainWf(r)
  {
    if k == 0 then ch
    else
      var p := After(signed, ch, tr, k - 1);
      StepKeepsWf(signed, p, tr[k - 1].height, tr[k - 1].msg);
      Step(signed, p, tr[k - 1].height, tr[k - 1].msg)
  }

  /** A session nothing has happened in yet. */
  ghost predicate Untouched(s: Session) {
    Wf(s) && s.commits == map[] && s.complaints == [] && s.revealed == map[] && s.slashed == {}
  }

  // ---------------------------------------------------------------- an honest dealer

  /** `ev` opens the share of `d` for `c`, in time and correctly. */
  ghost predicate Answers(s: Session, cs: seq<Point>, d: Id, c: Id, ev: Event) {
    && ev.msg.Reveal? && ev.msg.dealer == d && ev.msg.to == c && ev.height <= s.revealBy
    && IsMember(s, c) && ShareMatches(cs, IndexOf(s.members, c).value, ev.msg.share)
  }

  ghost predicate AnswersAfter(s: Session, cs: seq<Point>, d: Id, c: Id, tr: seq<Event>, i: nat) {
    exists j :: i < j < |tr| && Answers(s, cs, d, c, tr[j])
  }

  /** `d` signs only shares of the polynomial it commits to. */
  ghost predicate SignsCorrectly(s: Session, signed: Signed, d: Id, cs: seq<Point>) {
    forall to, share :: (d, to, share) in signed && IsMember(s, to) ==> ShareMatches(cs, IndexOf(s.members, to).value, share)
  }

  /** The dealer commits at position `i`, before the deadline height, and never before that position. */
  ghost predicate CommitsAt(s: Session, tr: seq<Event>, d: Id, cs: seq<Point>, i: nat) {
    && i < |tr| && tr[i].msg == Commit(d, cs) && |cs| == s.threshold && tr[i].height < s.commitBy
    && forall j :: 0 <= j < i && tr[j].msg.Commit? ==> tr[j].msg.dealer != d
  }

  /** The dealer answers every complaint of a member that arrives in the complaint window. */
  ghost predicate AnswersAll(s: Session, tr: seq<Event>, d: Id, cs: seq<Point>) {
    forall i, c :: 0 <= i < |tr| && tr[i].msg == ComplainMissing(Complaint(c, d)) && IsMember(s, c) && InWindow(s, tr[i].height) ==>
      AnswersAfter(s, cs, d, c, tr, i)
  }

  ghost predicate InWindow(s: Session, h: int) { s.commitBy <= h <= s.complainBy }

  ghost predicate Honest(s: Session, signed: Signed, tr: seq<Event>, d: Id, cs: seq<Point>, i: nat) {
    && d != "" && IsMember(s, d) && Ordered(tr)
    && CommitsAt(s, tr, d, cs, i) && SignsCorrectly(s, signed, d, cs) && AnswersAll(s, tr, d, cs)
  }

  // ---------------------------------------------------------------- its invariant

  /** The complaint of `c` was filed at some position, and an answer after it has been recorded. */
  ghost predicate Filed(s0: Session, s: Session, tr: seq<Event>, d: Id, cs: seq<Point>, c: Id, k: nat) {
    exists p :: 0 <= p < k && FiledAt(s0, s, tr, d, cs, c, k, p)
  }

  ghost predicate FiledAt(s0: Session, s: Session, tr: seq<Event>, d: Id, cs: seq<Point>, c: Id, k: nat, p: nat) {
    && p < k <= |tr| && tr[p].msg == ComplainMissing(Complaint(c, d)) && IsMember(s0, c) && c != "" && InWindow(s0, tr[p].height)
    && forall j :: p < j < k && Answers(s0, cs, d, c, tr[j]) ==> (d, c) in s.revealed
  }

  /** What holds of the session while the honest dealer `d` takes part. */
  ghost predicate HonestInv(s0: Session, s: Session, tr: seq<Event>, d: Id, cs: seq<Point>, i: nat, k: nat) {
    && Wf(s) && SameRules(s0, s) && d !in s.slashed
    && (i < k ==> d in s.commits && s.commits[d] == cs)
    && (i >= k ==> d !in s.commits)
    && (forall c :: Complaint(c, d) in s.complaints ==> i < k && c != d && Filed(s0, s, tr, d, cs, c, k))
  }

  /** A complaint that stays keeps its record when the session moves on. */
  lemma FiledStays(s0: Session, s: Session, t: Session, tr: seq<Event>, d: Id, cs: seq<Point>, c: Id, k: nat)
    requires Filed(s0, s, tr, d, cs, c, k) && k < |tr|
    requires (d, c) in s.revealed ==> (d, c) in t.revealed
    requires Answers(s0, cs, d, c, tr[k]) ==> (d, c) in t.revealed
    ensures Filed(s0, t, tr, d, cs, c, k + 1)
  {
    var p :| 0 <= p < k && FiledAt(s0, s, tr, d, cs, c, k, p);
    assert FiledAt(s0, t, tr, d, cs, c, k + 1, p);
  }

  /** An answer to a recorded complaint is recorded. */
  lemma AnswerAccepted(s0: Session, s: Session, tr: seq<Event>, d: Id, cs: seq<Point>, i: nat, k: nat, c: Id)
    requires HonestInv(s0, s, tr, d, cs, i, k) && k < |tr| && d != "" && IsMember(s0, d)
    requires Complaint(c, d) in s.complaints && Answers(s0, cs, d, c, tr[k])
    ensures var r := RevealStep(s, tr[k].height, d, c, tr[k].msg.share); r.Ok? || (d, c) in s.revealed
    ensures var r := RevealStep(s, tr[k].height, d, c, tr[k].msg.share); r.Ok? ==> (d, c) in r.value.revealed
  {
    var p :| 0 <= p < k && FiledAt(s0, s, tr, d, cs, c, k, p);
  }

  /** All complaints against `d` are answered once the reveal deadline has passed. */
  lemma AllAnswered(s0: Session, s: Session, signed: Signed, tr: seq<Event>, d: Id, cs: seq<Point>, i: nat, k: nat)
    requires Honest(s0, signed, tr, d, cs, i) && HonestInv(s0, s, tr, d, cs, i, k) && k < |tr| && tr[k].height > s0.revealBy
    ensures d !in Accused(s)
  {
    forall n | 0 <= n < |s.complaints| && s.complaints[n].dealer == d
      ensures Answered(s, s.complaints[n])
    {
      var c := s.complaints[n].complainer;
      assert s.complaints[n] == Complaint(c, d);
      var p :| 0 <= p < k && FiledAt(s0, s, tr, d, cs, c, k, p);
      assert AnswersAfter(s0, cs, d, c, tr, p);
      var j :| p < j < |tr| && Answers(s0, cs, d, c, tr[j]);
      assert j < k;
      assert RevealMatches(s, d, c);
    }
  }

  /** Once the commit deadline has passed the dealer has committed. */
  lemma HasCommitted(s0: Session, s: Session, signed: Signed, tr: seq<Event>, d: Id, cs: seq<Point>, i: nat, k: nat)
    requires Honest(s0, signed, tr, d, cs, i) && HonestInv(s0, s, tr, d, cs, i, k) && k < |tr| && tr[k].height >= s0.commitBy
    ensures i < k && d in s.commits && s.commits[d] == cs && d !in Silent(s)
  {
    assert i < k;
  }

  /** The invariant survives a change of the session that leaves `d` alone. */
  lemma InvMovesOn(s0: Session, s: Session, t: Session, tr: seq<Event>, d: Id, cs: seq<Point>, i: nat, k: nat)
    requires HonestInv(s0, s, tr, d, cs, i, k) && k < |tr| && i != k
    requires Wf(t) && SameRules(s, t) && Extends(s, t) && d !in t.slashed
    requires d in t.commits ==> d in s.commits
    requires forall c :: Complaint(c, d) in t.complaints ==>
               Complaint(c, d) in s.complaints && (Answers(s0, cs, d, c, tr[k]) ==> (d, c) in t.revealed)
    ensures HonestInv(s0, t, tr, d, cs, i, k + 1)
  {
    forall c | Complaint(c, d) in t.complaints
      ensures i < k + 1 && c != d && Filed(s0, t, tr, d, cs, c, k + 1)
    {
      FiledStays(s0, s, t, tr, d, cs, c, k);
    }
  }

  // ---------------------------------------------------------------- one message at a time

  ghost predicate Ready(s0: Session, s: Session, signed: Signed, tr: seq<Event>, d: Id, cs: seq<Point>, i: nat, k: nat) {
    Honest(s0, signed, tr, d, cs, i) && HonestInv(s0, s, tr, d, cs, i, k) && k < |tr|
  }

  lemma OnCommit(s0: Session, s: Session, signed: Signed, tr: seq<Event>, d: Id, cs: seq<Point>, i: nat, k: nat)
    requires Ready(s0, s, signed, tr, d, cs, i, k) && tr[k].msg.Commit?
    ensures var r := CommitStep(s, tr[k].height, tr[k].msg.dealer, tr[k].msg.commitments);
      HonestInv(s0, if r.Ok? then r.value else s, tr, d, cs, i, k + 1)
  {
    var r := CommitStep(s, tr[k].height, tr[k].msg.dealer, tr[k].msg.commitments);
    CommitWf(s, tr[k].height, tr[k].msg.dealer, tr[k].msg.commitments);
    var t := if r.Ok? then r.value else s;
    if i == k {
      assert forall c :: Complaint(c, d) !in t.complaints;
    } else {
      InvMovesOn(s0, s, t, tr, d, cs, i, k);
    }
  }

  lemma OnMissing(s0: Session, s: Session, signed: Signed, tr: seq<Event>, d: Id, cs: seq<Point>, i: nat, k: nat)
    requires Ready(s0, s, signed, tr, d, cs, i, k) && tr[k].msg.ComplainMissing?
    ensures var r := MissingStep(s, tr[k].height, tr[k].msg.complaint);
      HonestInv(s0, if r.Ok? then r.value else s, tr, d, cs, i, k + 1)
  {
    var c0 := tr[k].msg.complaint;
    var r := MissingStep(s, tr[k].height, c0);
    var t := if r.Ok? then r.value else s;
    RecordsWf(s, t);
    if r.Ok? && c0.dealer == d {
      HasCommitted(s0, s, signed, tr, d, cs, i, k);
      forall c | Complaint(c, d) in t.complaints
        ensures i < k + 1 && c != d && Filed(s0, t, tr, d, cs, c, k + 1)
      {
        if c == c0.complainer {
          assert FiledAt(s0, t, tr, d, cs, c, k + 1, k);
        } else {
          FiledStays(s0, s, t, tr, d, cs, c, k);
        }
      }
    } else {
      InvMovesOn(s0, s, t, tr, d, cs, i, k);
    }
  }

  lemma OnInvalid(s0: Session, s: Session, signed: Signed, tr: seq<Event>, d: Id, cs: seq<Point>, i: nat, k: nat)
    requires Ready(s0, s, signed, tr, d, cs, i, k) && tr[k].msg.ComplainInvalid?
    ensures var c := tr[k].msg.complaint;
      var r := InvalidStep(s, tr[k].height, c, tr[k].msg.share, (c.dealer, c.complainer, tr[k].msg.share) in signed);
      HonestInv(s0, if r.Ok? then r.value else s, tr, d, cs, i, k + 1) && (r.Ok? ==> c.dealer != d)
  {
    var c0 := tr[k].msg.complaint;
    var r := InvalidStep(s, tr[k].height, c0, tr[k].msg.share, (c0.dealer, c0.complainer, tr[k].msg.share) in signed);
    var t := if r.Ok? then r.value else s;
    RecordsWf(s, t);
    if r.Ok? {
      HasCommitted(s0, s, signed, tr, d, cs, i, k);
    }
    InvMovesOn(s0, s, t, tr, d, cs, i, k);
  }

  lemma OnReveal(s0: Session, s: Session, signed: Signed, tr: seq<Event>, d: Id, cs: seq<Point>, i: nat, k: nat)
    requires Ready(s0, s, signed, tr, d, cs, i, k) && tr[k].msg.Reveal?
    ensures var r := RevealStep(s, tr[k].height, tr[k].msg.dealer, tr[k].msg.to, tr[k].msg.share);
      HonestInv(s0, if r.Ok? then r.value else s, tr, d, cs, i, k + 1)
  {
    var m := tr[k].msg;
    var r := RevealStep(s, tr[k].height, m.dealer, m.to, m.share);
    RevealWf(s, tr[k].height, m.dealer, m.to, m.share);
    var t := if r.Ok? then r.value else s;
    forall c | Complaint(c, d) in t.complaints && Answers(s0, cs, d, c, tr[k])
      ensures (d, c) in t.revealed
    {
      AnswerAccepted(s0, s, tr, d, cs, i, k, c);
    }
    InvMovesOn(s0, s, t, tr, d, cs, i, k);
  }

  lemma OnTimeout(s0: Session, s: Session, signed: Signed, tr: seq<Event>, d: Id, cs: seq<Point>, i: nat, k: nat)
    requires Ready(s0, s, signed, tr, d, cs, i, k) && tr[k].msg.Timeout?
    ensures TimeoutStep(s, tr[k].height).Err? ==> HonestInv(s0, s, tr, d, cs, i, k + 1)
    ensures var r := TimeoutStep(s, tr[k].height);
      r.Ok? ==>
        && d !in Silent(s)
        && (r.value.0.Running? ==> HonestInv(s0, r.value.1, tr, d, cs, i, k + 1))
        && (r.value.0.Finalized? ==> d !in r.value.1.slashed && r.value.0.epoch.members == s0.members && d !in r.value.0.epoch.slashed)
  {
    var r := TimeoutStep(s, tr[k].height);
    if r.Err? {
      InvMovesOn(s0, s, s, tr, d, cs, i, k);
    } else {
      HasCommitted(s0, s, signed, tr, d, cs, i, k);
      var t := s.(slashed := s.slashed + Silent(s));
      RecordsWf(s, t);
      InvMovesOn(s0, s, t, tr, d, cs, i, k);
      if tr[k].height > s.revealBy {
        AllAnswered(s0, s, signed, tr, d, cs, i, k);
        SameAccused(s, t);
      }
    }
  }

  /** Open complaints do not depend on who is slashed. */
  lemma SameAccused(s: Session, t: Session)
    requires t == s.(slashed := t.slashed)
    ensures Accused(t) == Accused(s) && Silent(t) == Silent(s)
  {
    assert forall c :: Answered(t, c) <==> Answered(s, c);
  }

  lemma OnFinalize(s0: Session, s: Session, signed: Signed, tr: seq<Event>, d: Id, cs: seq<Point>, i: nat, k: nat)
    requires Ready(s0, s, signed, tr, d, cs, i, k) && tr[k].msg.Finalize?
    ensures FinalizeStep(s, tr[k].height).Err? ==> HonestInv(s0, s, tr, d, cs, i, k + 1)
    ensures FinalizeStep(s, tr[k].height).Ok? ==> d !in FinalSlashed(s)
  {
    if FinalizeStep(s, tr[k].height).Err? {
      InvMovesOn(s0, s, s, tr, d, cs, i, k);
    } else {
      HasCommitted(s0, s, signed, tr, d, cs, i, k);
      AllAnswered(s0, s, signed, tr, d, cs, i, k);
    }
  }

  // ---------------------------------------------------------------- the theorem

  /** `d` has not been punished: it is not jailed, and not slashed in the session. */
  ghost predicate Unpunished(ch: Chain, d: Id) {
    d !in ch.jailed && (ch.session.Some? ==> d !in ch.session.value.slashed)
  }

  ghost predicate Good(s0: Session, ch: Chain, tr: seq<Event>, d: Id, cs: seq<Point>, i: nat, k: nat) {
    Unpunished(ch, d) && (ch.session.Some? ==> HonestInv(s0, ch.session.value, tr, d, cs, i, k))
  }

  /** What the message decides about the session. */
  ghost function VerdictOf(s: Session, ev: Event): Verdict
    requires Wf(s)
  {
    match ev.msg
    case Finalize => var r := FinalizeStep(s, ev.height); if r.Ok? then r.value else Running
    case Timeout => var r := TimeoutStep(s, ev.height); if r.Ok? then r.value.0 else Running
    case _ => Running
  }

  /** The message at position `k` finalizes the epoch. */
  ghost predicate FinalizesAt(signed: Signed, ch: Chain, tr: seq<Event>, k: nat)
    requires ChainWf(ch)
  {
    k < |tr| && After(signed, ch, tr, k).session.Some? && VerdictOf(After(signed, ch, tr, k).session.value, tr[k]).Finalized?
  }

  /** `d` is a qualified member of the epoch. */
  ghost predicate InQual(e: Option<Epoch>, s0: Session, d: Id) {
    e.Some? && e.value.members == s0.members && IsMember(s0, d) && d !in e.value.slashed
  }

  lemma HonestStep(s0: Session, signed: Signed, tr: seq<Event>, d: Id, cs: seq<Point>, i: nat, k: nat, ch: Chain)
    requires ChainWf(ch) && Honest(s0, signed, tr, d, cs, i) && k < |tr| && Good(s0, ch, tr, d, cs, i, k)
    ensures Good(s0, Step(signed, ch, tr[k].height, tr[k].msg), tr, d, cs, i, k + 1)
    ensures ch.session.Some? && VerdictOf(ch.session.value, tr[k]).Finalized? ==> InQual(Step(signed, ch, tr[k].height, tr[k].msg).epoch, s0, d)
  {
    hide Honest, HonestInv, CommitStep, MissingStep, InvalidStep, RevealStep, FinalizeStep, TimeoutStep, FinalSlashed, Silent;
    if ch.session.Some? {
      var s := ch.session.value;
      HonestInvFacts(s0, s, tr, d, cs, i, k);
      HonestMember(s0, signed, tr, d, cs, i);
      match tr[k].msg {
        case Commit(_, _) => OnCommit(s0, s, signed, tr, d, cs, i, k); Unslashed(s0, tr, d, cs, i, k + 1);
        case ComplainMissing(_) => OnMissing(s0, s, signed, tr, d, cs, i, k); Unslashed(s0, tr, d, cs, i, k + 1);
        case ComplainInvalid(_, _) => OnInvalid(s0, s, signed, tr, d, cs, i, k); Unslashed(s0, tr, d, cs, i, k + 1);
        case Reveal(_, _, _) => OnReveal(s0, s, signed, tr, d, cs, i, k); Unslashed(s0, tr, d, cs, i, k + 1);
        case Finalize => OnFinalize(s0, s, signed, tr, d, cs, i, k); FinalEpoch(s, tr[k].height);
        case Timeout => OnTimeout(s0, s, signed, tr, d, cs, i, k); Unslashed(s0, tr, d, cs, i, k + 1);
      }
    }
  }

  lemma HonestMember(s0: Session, signed: Signed, tr: seq<Event>, d: Id, cs: seq<Point>, i: nat)
    requires Honest(s0, signed, tr, d, cs, i)
    ensures IsMember(s0, d)
  {
  }

  lemma HonestInvFacts(s0: Session, s: Session, tr: seq<Event>, d: Id, cs: seq<Point>, i: nat, k: nat)
    requires HonestInv(s0, s, tr, d, cs, i, k)
    ensures Wf(s) && SameRules(s0, s) && d !in s.slashed
  {
  }

  lemma Unslashed(s0: Session, tr: seq<Event>, d: Id, cs: seq<Point>, i: nat, k: nat)
    ensures forall s :: HonestInv(s0, s, tr, d, cs, i, k) ==> d !in s.slashed
  {
  }

  lemma FinalEpoch(s: Session, h: int)
    requires Wf(s)
    ensures var r := FinalizeStep(s, h);
      r.Ok? ==> !r.value.Running? && (r.value.Finalized? ==> r.value.epoch.members == s.members && r.value.epoch.slashed == FinalSlashed(s))
  {
  }

  lemma HonestStart(s0: Session, signed: Signed, tr: seq<Event>, d: Id, cs: seq<Point>, i: nat, prior: Option<Epoch>)
    requires Untouched(s0) && Honest(s0, signed, tr, d, cs, i)
    ensures Good(s0, Chain(Some(s0), prior, {}), tr, d, cs, i, 0)
  {
  }

  lemma {:induction false} HonestRun(s0: Session, signed: Signed, tr: seq<Event>, d: Id, cs: seq<Point>, i: nat, prior: Option<Epoch>, k: nat)
    requires Untouched(s0) && Honest(s0, signed, tr, d, cs, i) && k <= |tr|
    ensures Good(s0, After(signed, Chain(Some(s0), prior, {}), tr, k), tr, d, cs, i, k)
  {
    hide Step, Good, Honest;
    if k == 0 {
      HonestStart(s0, signed, tr, d, cs, i, prior);
    } else {
      HonestRun(s0, signed, tr, d, cs, i, prior, k - 1);
      HonestStep(s0, signed, tr, d, cs, i, k - 1, After(signed, Chain(Some(s0), prior, {}), tr, k - 1));
    }
  }

  /** THEOREM.  In every ordered run, whatever all others send, a dealer that commits strictly before the deadline
      height, signs only correct shares and answers every complaint in time is never slashed or jailed, and is in
      QUAL whenever the run finalizes the epoch. */
  lemma HonestDealerQualifies(s0: Session, signed: Signed, tr: seq<Event>, d: Id, cs: seq<Point>, i: nat, prior: Option<Epoch>, k: nat)
    requires Untouched(s0) && Honest(s0, signed, tr, d, cs, i) && k <= |tr|
    ensures Unpunished(After(signed, Chain(Some(s0), prior, {}), tr, k), d)
    ensures forall j :: 0 <= j < k && FinalizesAt(signed, Chain(Some(s0), prior, {}), tr, j) ==>
              InQual(After(signed, Chain(Some(s0), prior, {}), tr, j + 1).epoch, s0, d)
  {
    hide Step, After, Honest, HonestInv, Unpunished, VerdictOf;
    var ch0 := Chain(Some(s0), prior, {});
    HonestRun(s0, signed, tr, d, cs, i, prior, k);
    forall j | 0 <= j < k && FinalizesAt(signed, ch0, tr, j)
      ensures InQual(After(signed, ch0, tr, j + 1).epoch, s0, d)
    {
      HonestRun(s0, signed, tr, d, cs, i, prior, j);
      HonestStep(s0, signed, tr, d, cs, i, j, After(signed, ch0, tr, j));
      AfterNext(signed, ch0, tr, j);
    }
  }

  lemma AfterNext(signed: Signed, ch: Chain, tr: seq<Event>, k: nat)
    requires ChainWf(ch) && k < |tr|
    ensures After(signed, ch, tr, k + 1) == Step(signed, After(signed, ch, tr, k), tr[k].height, tr[k].msg)
  {
  }

  // ---------------------------------------------------------------- committing exactly at the deadline

  /** Everything an honest dealer does, with its commit at height `h`. */
  ghost predicate HonestAt(s: Session, signed: Signed, tr: seq<Event>, d: Id, cs: seq<Point>, i: nat, h: int) {
    && d != "" && IsMember(s, d) && Ordered(tr)
    && i < |tr| && tr[i] == Event(h, Commit(d, cs)) && |cs| == s.threshold
    && (forall j :: 0 <= j < i && tr[j].msg.Commit? ==> tr[j].msg.dealer != d)
    && SignsCorrectly(s, signed, d, cs) && AnswersAll(s, tr, d, cs)
  }

  /** No run punishes a dealer that commits to `cs` at height `h` and is honest otherwise. */
  ghost predicate SafeHeight(s0: Session, d: Id, cs: seq<Point>, h: int)
    requires Wf(s0)
  {
    forall signed: Signed, tr: seq<Event>, i: nat, k: nat ::
      HonestAt(s0, signed, tr, d, cs, i, h) && k <= |tr| ==> Unpunished(After(signed, Chain(Some(s0), None, {}), tr, k), d)
  }

  /** THEOREM.  A commit height the chain accepts is safe if and only if it lies strictly before the deadline: at the
      deadline itself a correctly signed share that was handed out suffices to have the dealer slashed. */
  lemma SafeIffBeforeDeadline(s0: Session, d: Id, cs: seq<Point>, h: int, other: Id)
    requires Untouched(s0) && d != "" && IsMember(s0, d) && |cs| == s0.threshold && h <= s0.commitBy
    requires other != "" && other != d && IsMember(s0, other)
    ensures SafeHeight(s0, d, cs, h) <==> h < s0.commitBy
  {
    if h < s0.commitBy {
      forall signed: Signed, tr: seq<Event>, i: nat, k: nat | HonestAt(s0, signed, tr, d, cs, i, h) && k <= |tr|
        ensures Unpunished(After(signed, Chain(Some(s0), None, {}), tr, k), d)
      {
        HonestDealerQualifies(s0, signed, tr, d, cs, i, None, k);
      }
    } else {
      var signed, tr := LateRun(s0, d, cs, other);
      assert HonestAt(s0, signed, tr, d, cs, 1, h);
      assert !Unpunished(After(signed, Chain(Some(s0), None, {}), tr, 1), d);
    }
  }

  /** A run in which the dealer does everything right except that it commits at the deadline height itself. */
  lemma LateRun(s0: Session, d: Id, cs: seq<Point>, other: Id) returns (signed: Signed, tr: seq<Event>)
    requires Untouched(s0) && d != "" && IsMember(s0, d) && |cs| == s0.threshold
    requires other != "" && other != d && IsMember(s0, other)
    ensures |tr| == 2 && HonestAt(s0, signed, tr, d, cs, 1, s0.commitBy)
    ensures CommitStep(s0, s0.commitBy, d, cs).Ok?
    ensures d in After(signed, Chain(Some(s0), None, {}), tr, 1).jailed
  {
    var x := Eval(Logs(cs), IndexOf(s0.members, other).value);
    var share := Mod(x);
    signed := iset{(d, other, share)};
    var c := Complaint(other, d);
    tr := [Event(s0.commitBy, ComplainInvalid(c, share)), Event(s0.commitBy, Commit(d, cs))];
    assert MayComplain(s0, s0.commitBy, c);
    var ch := Chain(Some(s0), None, {});
    assert After(signed, ch, tr, 0) == ch;
    AfterNext(signed, ch, tr, 0);
  }
}
