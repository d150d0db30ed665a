/** The converse: what the messages of a run must have been for a member to qualify. */
module DkgConverse {
  import opened Zq
  import opened Outcome
  import opened Lagrange
  import opened Feldman
  import opened Dkg
  import opened DkgSafety

  // ---------------------------------------------------------------- messages that count

  /** A member commits to a polynomial of the right degree, up to and including the commit deadline. */
  ghost predicate Commits(s: Session, ev: Event, d: Id) {
    && ev.msg.Commit? && ev.msg.dealer == d && d != "" && IsMember(s, d)
    && |ev.msg.commitments| == s.threshold && ev.height <= s.commitBy
  }

  /** A member complains about another one in the complaint window. */
  ghost predicate Complains(s: Session, h: int, c: Complaint) {
    && InWindow(s, h) && c.complainer != "" && c.dealer != "" && c.complainer != c.dealer
    && IsMember(s, c.complainer) && IsMember(s, c.dealer)
  }

  /** The complaint carries a share the dealer signed that is not the share it committed to. */
  ghost predicate Proves(signed: Signed, s: Session, ev: Event, c: Complaint) {
    && ev.msg.ComplainInvalid? && ev.msg.complaint == c && Complains(s, ev.height, c) && (c.dealer, c.complainer, ev.msg.share) in signed
    && !(c.dealer in s.commits && ShareMatches(s.commits[c.dealer], IndexOf(s.members, c.complainer).value, ev.msg.share))
  }

  /** The dealer opens, in time, the share a recorded complaint asks for, and it is the one it committed to. */
  ghost predicate Opens(s: Session, ev: Event, d: Id, to: Id) {
    && ev.msg.Reveal? && ev.msg.dealer == d && ev.msg.to == to && ev.height <= s.revealBy && d != "" && to != "" && d != to
    && IsMember(s, d) && IsMember(s, to) && Complaint(to, d) in s.complaints
    && d in s.commits && ShareMatches(s.commits[d], IndexOf(s.members, to).value, ev.msg.share)
  }

  /** The message slashes `d`: a timeout after the commit deadline finds the member without a commitment, or the
      first complaint of its complainer proves a wrong share. */
  ghost predicate Slashes(signed: Signed, s: Session, ev: Event, d: Id) {
    || (ev.msg.Timeout? && ev.height > s.commitBy && IsMember(s, d) && d !in s.commits)
    || (ev.msg.ComplainInvalid? && ev.msg.complaint.dealer == d && ev.msg.complaint !in s.complaints && Proves(signed, s, ev, ev.msg.complaint))
  }

  /** What the session records. */
  datatype Fact = HasCommit(dealer: Id) | Complained(complaint: Complaint) | Revealed(from: Id, to: Id) | Slashed(member: Id)

  ghost predicate Holds(s: Session, f: Fact) {
    match f
    case HasCommit(d) => d in s.commits
    case Complained(c) => c in s.complaints
    case Revealed(d, to) => (d, to) in s.revealed
    case Slashed(d) => d in s.slashed
  }

  ghost predicate Makes(signed: Signed, s: Session, ev: Event, f: Fact) {
    match f
    case HasCommit(d) => Commits(s, ev, d)
    case Complained(c) => (ev.msg == ComplainMissing(c) && Complains(s, ev.height, c)) || Proves(signed, s, ev, c)
    case Revealed(d, to) => Opens(s, ev, d, to)
    case Slashed(d) => Slashes(signed, s, ev, d)
  }

  /** The message at position `p` of the run makes the fact true. */
  ghost predicate MadeAt(signed: Signed, ch: Chain, tr: seq<Event>, f: Fact, p: nat)
    requires ChainWf(ch)
  {
    p < |tr| && After(signed, ch, tr, p).session.Some? && Makes(signed, After(signed, ch, tr, p).session.value, tr[p], f)
  }

  ghost predicate Made(signed: Signed, ch: Chain, tr: seq<Event>, f: Fact, k: nat)
    requires ChainWf(ch)
  {
    exists p :: 0 <= p < k && MadeAt(signed, ch, tr, f, p)
  }

  // ---------------------------------------------------------------- one message

  /** A fact holds after a message if it held before or the message makes it. */
  lemma FactStep(signed: Signed, ch: Chain, ev: Event, f: Fact)
    requires ChainWf(ch) && ch.session.Some? && Step(signed, ch, ev.height, ev.msg).session.Some?
    ensures Holds(Step(signed, ch, ev.height, ev.msg).session.value, f) <==>
              Holds(ch.session.value, f) || Makes(signed, ch.session.value, ev, f)
  {
    hide FinalizeStep, Silent;
    var s := ch.session.value;
    match ev.msg {
      case Commit(_, _) =>
      case ComplainMissing(_) =>
      case ComplainInvalid(_, _) =>
      case Reveal(_, _, _) =>
      case Finalize => FinalEpoch(s, ev.height);
      case Timeout =>
        TimeoutStays(s, ev.height);
        if f.Slashed? { SilentIs(s, f.member); }
    }
  }

  lemma SilentIs(s: Session, d: Id)
    requires Wf(s)
    ensures d in Silent(s) <==> IsMember(s, d) && d !in s.commits
  {
    if IsMember(s, d) { IndexIn(s.members, d); }
    if d in Silent(s) {
      var i :| 0 <= i < |s.members| && s.members[i].id !in s.commits && s.members[i].id == d;
      IndexFound(s.members, i);
    }
  }

  /** A timeout that leaves the session running slashes exactly the silent. */
  lemma TimeoutStays(s: Session, h: int)
    requires Wf(s)
    ensures var r := TimeoutStep(s, h);
      && (r.Err? ==> h <= s.commitBy)
      && (r.Ok? && r.value.0.Running? ==> h > s.commitBy && r.value.1 == s.(slashed := s.slashed + Silent(s)))
  {
  }

  // ---------------------------------------------------------------- runs

  /** THEOREM.  In every run the session holds a commitment, a complaint, a reveal or a slash if and only if a message
      of the run, sent by the right member in its window, made it. */
  lemma {:induction false} RecordsAreMessages(signed: Signed, s0: Session, prior: Option<Epoch>, tr: seq<Event>, k: nat, f: Fact)
    requires Untouched(s0) && k <= |tr| && After(signed, Chain(Some(s0), prior, {}), tr, k).session.Some?
    ensures Holds(After(signed, Chain(Some(s0), prior, {}), tr, k).session.value, f) <==> Made(signed, Chain(Some(s0), prior, {}), tr, f, k)
  {
    hide Step, Makes;
    var ch0 := Chain(Some(s0), prior, {});
    if k > 0 {
      var prev := After(signed, ch0, tr, k - 1);
      StepKeepsWf(signed, prev, tr[k - 1].height, tr[k - 1].msg);
      RecordsAreMessages(signed, s0, prior, tr, k - 1, f);
      FactStep(signed, prev, tr[k - 1], f);
      AfterNext(signed, ch0, tr, k - 1);
      MadeNext(signed, ch0, tr, f, k - 1);
    }
  }

  lemma MadeNext(signed: Signed, ch: Chain, tr: seq<Event>, f: Fact, k: nat)
    requires ChainWf(ch) && k < |tr|
    ensures Made(signed, ch, tr, f, k + 1) <==> Made(signed, ch, tr, f, k) || MadeAt(signed, ch, tr, f, k)
  {
    hide After, Makes, MadeAt;
    if Made(signed, ch, tr, f, k + 1) {
      var p :| 0 <= p < k + 1 && MadeAt(signed, ch, tr, f, p);
      assert p == k || p < k;
    }
  }

  /** The messages that earn a place in QUAL by position `k`. */
  ghost predicate Earned(signed: Signed, ch: Chain, tr: seq<Event>, d: Id, k: nat)
    requires ChainWf(ch)
  {
    && Made(signed, ch, tr, HasCommit(d), k)
    && !Made(signed, ch, tr, Slashed(d), k)
    && forall c: Id :: Made(signed, ch, tr, Complained(Complaint(c, d)), k) ==> Made(signed, ch, tr, Revealed(d, c), k)
  }

  /** What finalization decides from the session. */
  lemma FinalSlashedIs(s: Session, d: Id)
    requires Wf(s) && IsMember(s, d)
    ensures d !in FinalSlashed(s) <==>
      d !in s.slashed && d in s.commits && forall c: Id :: Complaint(c, d) in s.complaints ==> (d, c) in s.revealed
  {
    IndexIn(s.members, d);
    if d in Silent(s) {
      var i :| 0 <= i < |s.members| && s.members[i].id !in s.commits && s.members[i].id == d;
    }
    forall i | 0 <= i < |s.complaints| && s.complaints[i].dealer == d
      ensures Answered(s, s.complaints[i]) <==> (d, s.complaints[i].complainer) in s.revealed
    {
      var c := s.complaints[i].complainer;
      if (d, c) in s.revealed { assert RevealMatches(s, d, c); }
    }
    if d in Accused(s) {
      var i :| 0 <= i < |s.complaints| && !Answered(s, s.complaints[i]) && s.complaints[i].dealer == d;
      assert s.complaints[i] == Complaint(s.complaints[i].complainer, d);
    }
    if c: Id :| Complaint(c, d) in s.complaints && (d, c) !in s.revealed {
      var i :| 0 <= i < |s.complaints| && s.complaints[i] == Complaint(c, d);
      assert d in Accused(s);
    }
  }

  /** The slashed set a finalizing message writes into the epoch. */
  lemma VerdictSlashed(s: Session, ev: Event)
    requires Wf(s) && VerdictOf(s, ev).Finalized?
    ensures VerdictOf(s, ev).epoch.members == s.members && VerdictOf(s, ev).epoch.slashed == FinalSlashed(s)
  {
    if ev.msg.Timeout? {
      var t := s.(slashed := s.slashed + Silent(s));
      RecordsWf(s, t);
      SameAccused(s, t);
      FinalEpoch(t, ev.height);
    } else {
      FinalEpoch(s, ev.height);
    }
  }

  /** THEOREM.  At the message that finalizes any run, a member is in QUAL if and only if the run holds a commitment of
      it in time, no message that slashed it, and a verifying reveal in time for every complaint against it. */
  lemma QualIsEarned(signed: Signed, s0: Session, prior: Option<Epoch>, tr: seq<Event>, k: nat, d: Id)
    requires Untouched(s0) && FinalizesAt(signed, Chain(Some(s0), prior, {}), tr, k) && IsMember(s0, d)
    ensures InQual(After(signed, Chain(Some(s0), prior, {}), tr, k + 1).epoch, s0, d) <==> Earned(signed, Chain(Some(s0), prior, {}), tr, d, k)
  {
    hide Step, After, Made, Silent, Accused, FinalSlashed, VerdictOf, Earned;
    var ch0 := Chain(Some(s0), prior, {});
    RulesKept(signed, s0, prior, tr, k);
    UnslashedIsEarned(signed, s0, prior, tr, k, d);
    VerdictSlashed(After(signed, ch0, tr, k).session.value, tr[k]);
    AfterNext(signed, ch0, tr, k);
    EpochWritten(signed, After(signed, ch0, tr, k), tr[k]);
  }

  lemma EpochWritten(signed: Signed, ch: Chain, ev: Event)
    requires ChainWf(ch) && ch.session.Some? && VerdictOf(ch.session.value, ev).Finalized?
    ensures Step(signed, ch, ev.height, ev.msg).epoch == Some(VerdictOf(ch.session.value, ev).epoch)
  {
    hide FinalizeStep, TimeoutStep;
  }

  lemma {:induction false} RulesKept(signed: Signed, s0: Session, prior: Option<Epoch>, tr: seq<Event>, k: nat)
    requires Untouched(s0) && k <= |tr| && After(signed, Chain(Some(s0), prior, {}), tr, k).session.Some?
    ensures SameRules(s0, After(signed, Chain(Some(s0), prior, {}), tr, k).session.value)
  {
    hide Step;
    var ch0 := Chain(Some(s0), prior, {});
    if k > 0 {
      StepKeepsWf(signed, After(signed, ch0, tr, k - 1), tr[k - 1].height, tr[k - 1].msg);
      RulesKept(signed, s0, prior, tr, k - 1);
    }
  }

  // ---------------------------------------------------------------- when a run finalizes

  /** The members for which `keep` holds. */
  ghost function IdsWhere(ms: seq<Member>, keep: Id -> bool): set<Id> {
    set i | 0 <= i < |ms| && keep(ms[i].id) :: ms[i].id
  }

  lemma {:induction false} QualCount(ms: seq<Member>, slashed: set<Id>, keep: Id -> bool)
    requires forall i, j :: 0 <= i < j < |ms| ==> ms[i].id != ms[j].id
    requires forall i :: 0 <= i < |ms| ==> (keep(ms[i].id) <==> ms[i].id !in slashed)
    ensures |Qual(ms, slashed)| == |IdsWhere(ms, keep)|
  {
    if ms != [] {
      var front, last := ms[..|ms| - 1], ms[|ms| - 1].id;
      QualCount(front, slashed, keep);
      assert forall i :: 0 <= i < |front| ==> front[i] == ms[i];
      if keep(last) {
        assert IdsWhere(ms, keep) == IdsWhere(front, keep) + {last};
        assert last !in IdsWhere(front, keep);
      } else {
        assert IdsWhere(ms, keep) == IdsWhere(front, keep);
      }
    }
  }

  /** Who has earned its place by position `k`. */
  ghost function EarnedIds(signed: Signed, ch: Chain, ms: seq<Member>, tr: seq<Event>, k: nat): set<Id>
    requires ChainWf(ch)
  {
    IdsWhere(ms, d => Earned(signed, ch, tr, d, k))
  }

  /** Who can still earn it: committed in time and not slashed. */
  ghost function HopefulIds(signed: Signed, ch: Chain, ms: seq<Member>, tr: seq<Event>, k: nat): set<Id>
    requires ChainWf(ch)
  {
    IdsWhere(ms, d => Made(signed, ch, tr, HasCommit(d), k) && !Made(signed, ch, tr, Slashed(d), k))
  }

  /** What finalization would decide about a member, from the messages. */
  lemma UnslashedIsEarned(signed: Signed, s0: Session, prior: Option<Epoch>, tr: seq<Event>, k: nat, d: Id)
    requires Untouched(s0) && k <= |tr| && After(signed, Chain(Some(s0), prior, {}), tr, k).session.Some? && IsMember(s0, d)
    ensures d !in FinalSlashed(After(signed, Chain(Some(s0), prior, {}), tr, k).session.value) <==> Earned(signed, Chain(Some(s0), prior, {}), tr, d, k)
  {
    hide Step, After, Made, Silent, Accused, FinalSlashed;
    var ch0 := Chain(Some(s0), prior, {});
    var s := After(signed, ch0, tr, k).session.value;
    RulesKept(signed, s0, prior, tr, k);
    FinalSlashedIs(s, d);
    RecordsAreMessages(signed, s0, prior, tr, k, HasCommit(d));
    RecordsAreMessages(signed, s0, prior, tr, k, Slashed(d));
    forall c: Id
      ensures Complaint(c, d) in s.complaints <==> Made(signed, ch0, tr, Complained(Complaint(c, d)), k)
      ensures (d, c) in s.revealed <==> Made(signed, ch0, tr, Revealed(d, c), k)
    {
      RecordsAreMessages(signed, s0, prior, tr, k, Complained(Complaint(c, d)));
      RecordsAreMessages(signed, s0, prior, tr, k, Revealed(d, c));
    }
  }

  lemma MemberAt(s: Session, i: nat)
    requires Wf(s) && i < |s.members|
    ensures IsMember(s, s.members[i].id)
  {
    IndexFound(s.members, i);
  }

  /** As many qualify as have earned it. */
  lemma EarnedCount(signed: Signed, s0: Session, prior: Option<Epoch>, tr: seq<Event>, k: nat)
    requires Untouched(s0) && k <= |tr| && After(signed, Chain(Some(s0), prior, {}), tr, k).session.Some?
    ensures var s := After(signed, Chain(Some(s0), prior, {}), tr, k).session.value;
      |Qual(s.members, FinalSlashed(s))| == |EarnedIds(signed, Chain(Some(s0), prior, {}), s0.members, tr, k)|
  {
    hide Step, After, Made, FinalSlashed, Earned;
    var ch0 := Chain(Some(s0), prior, {});
    var s := After(signed, ch0, tr, k).session.value;
    RulesKept(signed, s0, prior, tr, k);
    forall i | 0 <= i < |s0.members|
      ensures Earned(signed, ch0, tr, s0.members[i].id, k) <==> s0.members[i].id !in FinalSlashed(s)
    {
      MemberAt(s0, i);
      UnslashedIsEarned(signed, s0, prior, tr, k, s0.members[i].id);
    }
    QualCount(s0.members, FinalSlashed(s), d => Earned(signed, ch0, tr, d, k));
  }

  lemma HopefulCount(signed: Signed, s0: Session, prior: Option<Epoch>, tr: seq<Event>, k: nat)
    requires Untouched(s0) && k <= |tr| && After(signed, Chain(Some(s0), prior, {}), tr, k).session.Some?
    ensures var s := After(signed, Chain(Some(s0), prior, {}), tr, k).session.value;
      |Qual(s.members, s.slashed + Silent(s))| == |HopefulIds(signed, Chain(Some(s0), prior, {}), s0.members, tr, k)|
  {
    hide Step, After, Made, Silent;
    var ch0 := Chain(Some(s0), prior, {});
    var s := After(signed, ch0, tr, k).session.value;
    RulesKept(signed, s0, prior, tr, k);
    var keep: Id -> bool := d => Made(signed, ch0, tr, HasCommit(d), k) && !Made(signed, ch0, tr, Slashed(d), k);
    forall i | 0 <= i < |s0.members|
      ensures keep(s0.members[i].id) <==> s0.members[i].id !in s.slashed + Silent(s)
    {
      var d := s0.members[i].id;
      MemberAt(s, i);
      SilentIs(s, d);
      RecordsAreMessages(signed, s0, prior, tr, k, HasCommit(d));
      RecordsAreMessages(signed, s0, prior, tr, k, Slashed(d));
    }
    QualCount(s0.members, s.slashed + Silent(s), keep);
  }

  /** Slashing more leaves no more. */
  lemma {:induction false} QualShrinks(ms: seq<Member>, a: set<Id>, b: set<Id>)
    requires a <= b
    ensures |Qual(ms, b)| <= |Qual(ms, a)|
  {
    if ms != [] { QualShrinks(ms[..|ms| - 1], a, b); }
  }

  /** The verdict of a message that may end the session. */
  lemma VerdictIs(s: Session, ev: Event)
    requires Wf(s) && (ev.msg.Finalize? || ev.msg.Timeout?) && ev.height > s.revealBy
    ensures VerdictOf(s, ev).Finalized? <==> |Qual(s.members, FinalSlashed(s))| >= s.threshold
    ensures VerdictOf(s, ev).Aborted? <==> |Qual(s.members, FinalSlashed(s))| < s.threshold
  {
    hide Qual, Silent, Accused;
    var t := s.(slashed := s.slashed + Silent(s));
    RecordsWf(s, t);
    SameAccused(s, t);
    assert FinalSlashed(t) == FinalSlashed(s);
    QualShrinks(s.members, t.slashed, FinalSlashed(s));
  }

  /** THEOREM.  Past the reveal deadline, a finalize or a timeout message ends an open session, whatever the run was:
      it finalizes the epoch if and only if at least a threshold of members have earned their place, and aborts with
      the old epoch kept otherwise. */
  lemma FinalizesIffEnoughEarned(signed: Signed, s0: Session, prior: Option<Epoch>, tr: seq<Event>, k: nat)
    requires Untouched(s0) && k < |tr| && After(signed, Chain(Some(s0), prior, {}), tr, k).session.Some?
    requires (tr[k].msg.Finalize? || tr[k].msg.Timeout?) && tr[k].height > s0.revealBy
    ensures var ch0 := Chain(Some(s0), prior, {});
      && (FinalizesAt(signed, ch0, tr, k) <==> |EarnedIds(signed, ch0, s0.members, tr, k)| >= s0.threshold)
      && After(signed, ch0, tr, k + 1).session.None?
      && (!FinalizesAt(signed, ch0, tr, k) ==> After(signed, ch0, tr, k + 1).epoch == After(signed, ch0, tr, k).epoch)
  {
    hide Step, After, EarnedIds, Qual, FinalSlashed, VerdictOf;
    var ch0 := Chain(Some(s0), prior, {});
    RulesKept(signed, s0, prior, tr, k);
    EarnedCount(signed, s0, prior, tr, k);
    VerdictIs(After(signed, ch0, tr, k).session.value, tr[k]);
    AfterNext(signed, ch0, tr, k);
    EndsSession(signed, After(signed, ch0, tr, k), tr[k]);
  }

  lemma EndsSession(signed: Signed, ch: Chain, ev: Event)
    requires ChainWf(ch) && ch.session.Some? && (ev.msg.Finalize? || ev.msg.Timeout?)
    ensures var r := Step(signed, ch, ev.height, ev.msg);
      && (VerdictOf(ch.session.value, ev).Aborted? ==> r.session.None? && r.epoch == ch.epoch)
      && (VerdictOf(ch.session.value, ev).Finalized? ==> r.session.None?)
      && (VerdictOf(ch.session.value, ev).Running? ==> r.session.Some? && r.epoch == ch.epoch)
  {
    hide FinalizeStep, TimeoutStep;
    FinalEpoch(ch.session.value, ev.height);
  }

  /** THEOREM.  Before that a finalize message does nothing, and a timeout message ends the session if and only if the
      commit deadline has passed and fewer than a threshold of members can still earn their place. */
  lemma EarlyEndIff(signed: Signed, s0: Session, prior: Option<Epoch>, tr: seq<Event>, k: nat)
    requires Untouched(s0) && k < |tr| && After(signed, Chain(Some(s0), prior, {}), tr, k).session.Some?
    requires (tr[k].msg.Finalize? || tr[k].msg.Timeout?) && tr[k].height <= s0.revealBy
    ensures var ch0 := Chain(Some(s0), prior, {});
      && After(signed, ch0, tr, k + 1).epoch == After(signed, ch0, tr, k).epoch
      && (tr[k].msg.Finalize? ==> After(signed, ch0, tr, k + 1) == After(signed, ch0, tr, k))
      && (tr[k].msg.Timeout? ==>
            (After(signed, ch0, tr, k + 1).session.None? <==>
               tr[k].height > s0.commitBy && |HopefulIds(signed, ch0, s0.members, tr, k)| < s0.threshold))
  {
    hide After, HopefulIds, Qual, Silent, Accused;
    var ch0 := Chain(Some(s0), prior, {});
    RulesKept(signed, s0, prior, tr, k);
    HopefulCount(signed, s0, prior, tr, k);
    AfterNext(signed, ch0, tr, k);
  }

  // ---------------------------------------------------------------- who is jailed

  lemma {:induction false} JailedAreSlashed(signed: Signed, s0: Session, prior: Option<Epoch>, tr: seq<Event>, k: nat)
    requires Untouched(s0) && k <= |tr| && After(signed, Chain(Some(s0), prior, {}), tr, k).session.Some?
    ensures var ch := After(signed, Chain(Some(s0), prior, {}), tr, k); ch.jailed == ch.session.value.slashed
  {
    hide Step;
    var ch0 := Chain(Some(s0), prior, {});
    if k > 0 {
      StepKeepsWf(signed, After(signed, ch0, tr, k - 1), tr[k - 1].height, tr[k - 1].msg);
      JailedAreSlashed(signed, s0, prior, tr, k - 1);
      JailStep(signed, After(signed, ch0, tr, k - 1), tr[k - 1]);
    }
  }

  lemma JailStep(signed: Signed, ch: Chain, ev: Event)
    requires ChainWf(ch) && ch.session.Some? && ch.jailed == ch.session.value.slashed
    ensures var r := Step(signed, ch, ev.height, ev.msg);
      && (r.session.Some? ==> r.jailed == r.session.value.slashed)
      && (VerdictOf(ch.session.value, ev).Finalized? ==> r.jailed == FinalSlashed(ch.session.value))
  {
    hide Silent, Accused, Qual, EpochOf;
    var s := ch.session.value;
    if ev.msg.Timeout? {
      SameAccused(s, s.(slashed := s.slashed + Silent(s)));
    }
  }

  /** THEOREM.  The message that finalizes an epoch leaves exactly those members jailed that have not earned a place. */
  lemma JailedIffUnearned(signed: Signed, s0: Session, prior: Option<Epoch>, tr: seq<Event>, k: nat, d: Id)
    requires Untouched(s0) && FinalizesAt(signed, Chain(Some(s0), prior, {}), tr, k) && IsMember(s0, d)
    ensures d in After(signed, Chain(Some(s0), prior, {}), tr, k + 1).jailed <==> !Earned(signed, Chain(Some(s0), prior, {}), tr, d, k)
  {
    hide Step, After, FinalSlashed, VerdictOf, Earned;
    var ch0 := Chain(Some(s0), prior, {});
    JailedAreSlashed(signed, s0, prior, tr, k);
    JailStep(signed, After(signed, ch0, tr, k), tr[k]);
    AfterNext(signed, ch0, tr, k);
    UnslashedIsEarned(signed, s0, prior, tr, k, d);
  }
}
