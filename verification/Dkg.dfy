/** The distributed key generation of a dealer epoch (apps/chain/internal/app/dealer.go): state and steps. */
module Dkg {
  import opened Zq
  import opened Outcome
  import opened Lagrange
  import opened Feldman

  type Id = string

  datatype Member = Member(id: Id, index: nat)

  datatype Complaint = Complaint(complainer: Id, dealer: Id)

  /** An epoch in the making.  The lists the chain keeps sorted by identity are maps and sets here. */
  datatype Session = Session(
    threshold: nat, members: seq<Member>, commitBy: int, complainBy: int, revealBy: int,
    commits: map<Id, seq<Point>>, complaints: seq<Complaint>, revealed: map<(Id, Id), Scalar>, slashed: set<Id>)

  /** A finalized epoch; `pubShares[i]` belongs to `members[i]`. */
  datatype Epoch = Epoch(threshold: nat, pk: Point, members: seq<Member>, pubShares: seq<Point>, slashed: set<Id>)

  datatype Verdict = Running | Aborted | Finalized(epoch: Epoch)

  // ---------------------------------------------------------------- reading the session

  /** The index of the first member called `id`. */
  ghost function IndexOf(ms: seq<Member>, id: Id): Option<nat> {
    if ms == [] then None
    else if ms[0].id == id then Some(ms[0].index)
    else IndexOf(ms[1..], id)
  }

  ghost predicate IsMember(s: Session, id: Id) { IndexOf(s.members, id).Some? }

  /** A complaint that a verifying reveal has answered. */
  ghost predicate Answered(s: Session, c: Complaint) {
    && c.dealer in s.commits && (c.dealer, c.complainer) in s.revealed && IsMember(s, c.complainer)
    && ShareMatches(s.commits[c.dealer], IndexOf(s.members, c.complainer).value, s.revealed[(c.dealer, c.complainer)])
  }

  /** The members that have not committed. */
  ghost function Silent(s: Session): set<Id> {
    set i | 0 <= i < |s.members| && s.members[i].id !in s.commits :: s.members[i].id
  }

  /** The dealers with an open complaint. */
  ghost function Accused(s: Session): set<Id> {
    set i | 0 <= i < |s.complaints| && !Answered(s, s.complaints[i]) :: s.complaints[i].dealer
  }

  ghost function Qual(ms: seq<Member>, slashed: set<Id>): seq<Member> {
    if ms == [] then []
    else
      var front := Qual(ms[..|ms| - 1], slashed);
      if ms[|ms| - 1].id in slashed then front else front + [ms[|ms| - 1]]
  }

  // ---------------------------------------------------------------- steps

  ghost function CommitStep(s: Session, h: int, dealer: Id, cs: seq<Point>): Result<Session> {
    if h > s.commitBy || dealer == "" || !IsMember(s, dealer) || dealer in s.commits || |cs| != s.threshold then Err
    else Ok(s.(commits := s.commits[dealer := cs]))
  }

  /** The conditions both kinds of complaint share. */
  ghost predicate MayComplain(s: Session, h: int, c: Complaint) {
    && s.commitBy <= h <= s.complainBy
    && c.complainer != "" && c.dealer != "" && c.complainer != c.dealer
    && IsMember(s, c.complainer) && IsMember(s, c.dealer) && c !in s.complaints
  }

  ghost function MissingStep(s: Session, h: int, c: Complaint): Result<Session> {
    if !MayComplain(s, h, c) then Err else Ok(s.(complaints := s.complaints + [c]))
  }

  /** A complaint with a share the dealer signed: upheld when nothing is committed or the share does not match. */
  ghost function InvalidStep(s: Session, h: int, c: Complaint, share: Scalar, signed: bool): Result<Session> {
    if !MayComplain(s, h, c) || !signed then Err
    else if c.dealer in s.commits && ShareMatches(s.commits[c.dealer], IndexOf(s.members, c.complainer).value, share) then Err
    else Ok(s.(slashed := s.slashed + {c.dealer}, complaints := s.complaints + [c]))
  }

  ghost function RevealStep(s: Session, h: int, dealer: Id, to: Id, share: Scalar): Result<Session> {
    if h > s.revealBy || dealer == "" || to == "" || dealer == to then Err
    else if !IsMember(s, dealer) || !IsMember(s, to) || Complaint(to, dealer) !in s.complaints || (dealer, to) in s.revealed then Err
    else if dealer !in s.commits || !ShareMatches(s.commits[dealer], IndexOf(s.members, to).value, share) then Err
    else Ok(s.(revealed := s.revealed[(dealer, to) := share]))
  }

  /** Everyone slashed by the end: the silent, the accused, and those slashed before. */
  ghost function FinalSlashed(s: Session): set<Id> {
    s.slashed + Silent(s) + Accused(s)
  }

  ghost predicate Committed(s: Session, ms: seq<Member>) {
    forall i :: 0 <= i < |ms| ==> ms[i].id in s.commits && |s.commits[ms[i].id]| == s.threshold
  }

  ghost function CommitsOf(s: Session, ms: seq<Member>): (css: seq<seq<Point>>)
    requires Committed(s, ms)
    ensures Degree(css, s.threshold) && |css| == |ms|
  {
    seq(|ms|, i requires 0 <= i < |ms| => s.commits[ms[i].id])
  }

  /** The joint polynomial of the qualified dealers. */
  ghost function EpochPoly(s: Session, slashed: set<Id>): (F: seq<int>)
    requires Committed(s, Qual(s.members, slashed))
    ensures |F| == s.threshold
  {
    JointPoly(CommitsOf(s, Qual(s.members, slashed)), s.threshold)
  }

  ghost function EpochOf(s: Session, slashed: set<Id>): Epoch
    requires Committed(s, Qual(s.members, slashed))
  {
    var F := EpochPoly(s, slashed);
    Epoch(s.threshold, Point(Mod(Eval(F, 0))), s.members,
          seq(|s.members|, i requires 0 <= i < |s.members| => Point(Mod(Eval(F, s.members[i].index)))), slashed)
  }

  /** Every commitment list has the right length; every reveal matches the commitments of its dealer. */
  ghost predicate Wf(s: Session) {
    && s.threshold > 0 && s.commitBy < s.complainBy < s.revealBy
    && (forall i :: 0 <= i < |s.members| ==> s.members[i].id != "" && s.members[i].index == i + 1)
    && (forall i, j :: 0 <= i < j < |s.members| ==> s.members[i].id != s.members[j].id)
    && (forall d :: d in s.commits ==> |s.commits[d]| == s.threshold)
    && (forall d, to :: (d, to) in s.revealed ==> RevealMatches(s, d, to))
  }

  ghost predicate RevealMatches(s: Session, d: Id, to: Id)
    requires (d, to) in s.revealed
  {
    d in s.commits && IsMember(s, to) && ShareMatches(s.commits[d], IndexOf(s.members, to).value, s.revealed[(d, to)])
  }

  lemma {:induction false} QualSpec(ms: seq<Member>, slashed: set<Id>)
    ensures forall m :: m in Qual(ms, slashed) <==> m in ms && m.id !in slashed
    ensures |Qual(ms, slashed)| <= |ms|
  {
    if ms != [] {
      QualSpec(ms[..|ms| - 1], slashed);
      assert ms == ms[..|ms| - 1] + [ms[|ms| - 1]];
    }
  }

  lemma QualStep(ms: seq<Member>, slashed: set<Id>, n: nat)
    requires n < |ms|
    ensures Qual(ms[..n + 1], slashed) == if ms[n].id in slashed then Qual(ms[..n], slashed) else Qual(ms[..n], slashed) + [ms[n]]
  {
    assert ms[..n + 1][..n] == ms[..n];
  }

  /** Whoever is not slashed for silence has committed. */
  lemma QualCommitted(s: Session, slashed: set<Id>)
    requires Wf(s) && Silent(s) <= slashed
    ensures Committed(s, Qual(s.members, slashed))
  {
    QualSpec(s.members, slashed);
    forall i | 0 <= i < |Qual(s.members, slashed)|
      ensures Qual(s.members, slashed)[i].id in s.commits && |s.commits[Qual(s.members, slashed)[i].id]| == s.threshold
    {
      var m := Qual(s.members, slashed)[i];
      assert m in s.members && m.id !in slashed;
      var j :| 0 <= j < |s.members| && s.members[j] == m;
      assert s.members[j].id !in s.commits ==> m.id in Silent(s);
    }
  }

  ghost function FinalizeStep(s: Session, h: int): Result<Verdict>
    requires Wf(s)
  {
    var slashed := FinalSlashed(s);
    if h <= s.revealBy then Err
    else if |Qual(s.members, slashed)| < s.threshold then Ok(Aborted)
    else
      QualCommitted(s, slashed);
      Ok(Finalized(EpochOf(s, slashed)))
  }

  /** `dealerDKGTimeout`: the verdict and the session it leaves. */
  ghost function TimeoutStep(s: Session, h: int): Result<(Verdict, Session)>
    requires Wf(s)
  {
    if h <= s.commitBy then Err
    else
      var t := s.(slashed := s.slashed + Silent(s));
      if |Qual(t.members, t.slashed)| < t.threshold then Ok((Aborted, t))
      else if h > s.revealBy then
        var f := FinalizeStep(t, h);
        if f.Err? then Err else Ok((f.value, t.(slashed := FinalSlashed(t))))
      else Ok((Running, t))
  }

  // ---------------------------------------------------------------- the chain

  datatype Msg =
    | Commit(dealer: Id, commitments: seq<Point>)
    | ComplainMissing(complaint: Complaint)
    | ComplainInvalid(complaint: Complaint, share: Scalar)
    | Reveal(dealer: Id, to: Id, share: Scalar)
    | Finalize
    | Timeout

  /** The session in progress, the active epoch, and the validators this epoch's DKG has jailed. */
  datatype Chain = Chain(session: Option<Session>, epoch: Option<Epoch>, jailed: set<Id>)

  ghost predicate ChainWf(ch: Chain) { ch.session.Some? ==> Wf(ch.session.value) }

  /** What the dealers have signed: dealer, receiver and share. */
  type Signed = iset<(Id, Id, Scalar)>

  ghost function Keep(ch: Chain, r: Result<Session>): Chain {
    if r.Err? then ch else ch.(session := Some(r.value))
  }

  /** Where a verdict leaves the chain: an epoch replaces the old one, an abort keeps it. */
  ghost function Settle(ch: Chain, v: Verdict, s: Session, jailed: set<Id>): Chain {
    match v
    case Running => ch.(session := Some(s), jailed := ch.jailed + jailed)
    case Aborted => ch.(session := None, jailed := ch.jailed + jailed)
    case Finalized(e) => Chain(None, Some(e), ch.jailed + s.slashed)
  }

  /** One transaction at height `h`; a transaction that fails changes nothing. */
  ghost function Step(signed: Signed, ch: Chain, h: int, m: Msg): Chain
    requires ChainWf(ch)
  {
    if ch.session.None? then ch
    else
      var s := ch.session.value;
      match m
      case Commit(d, cs) => Keep(ch, CommitStep(s, h, d, cs))
      case ComplainMissing(c) => Keep(ch, MissingStep(s, h, c))
      case ComplainInvalid(c, share) =>
        var r := InvalidStep(s, h, c, share, (c.dealer, c.complainer, share) in signed);
        if r.Err? then ch else ch.(session := Some(r.value), jailed := ch.jailed + {c.dealer})
      case Reveal(d, to, share) => Keep(ch, RevealStep(s, h, d, to, share))
      case Finalize =>
        var r := FinalizeStep(s, h);
        if r.Err? then ch else Settle(ch, r.value, s.(slashed := FinalSlashed(s)), {})
      case Timeout =>
        var r := TimeoutStep(s, h);
        if r.Err? then ch else Settle(ch, r.value.0, r.value.1, Silent(s) - s.slashed)
  }

  lemma {:induction false} IndexFound(ms: seq<Member>, i: nat)
    requires i < |ms| && forall a, b :: 0 <= a < b < |ms| ==> ms[a].id != ms[b].id
    ensures IndexOf(ms, ms[i].id) == Some(ms[i].index)
  {
    if i > 0 {
      assert ms[0].id != ms[i].id;
      IndexFound(ms[1..], i - 1);
    }
  }

  lemma {:induction false} IndexIn(ms: seq<Member>, id: Id)
    requires IndexOf(ms, id).Some?
    ensures exists i :: 0 <= i < |ms| && ms[i].id == id && ms[i].index == IndexOf(ms, id).value
  {
    if ms[0].id != id {
      IndexIn(ms[1..], id);
      var i :| 0 <= i < |ms[1..]| && ms[1..][i].id == id && ms[1..][i].index == IndexOf(ms[1..], id).value;
      assert ms[i + 1] == ms[1..][i];
    }
  }

  /** Sessions that only differ in what has happened. */
  ghost predicate SameRules(s: Session, t: Session) {
    && t.threshold == s.threshold && t.members == s.members
    && t.commitBy == s.commitBy && t.complainBy == s.complainBy && t.revealBy == s.revealBy
  }

  /** Each step keeps a session well formed, keeps its rules, and never takes back a commitment, a complaint, a
      reveal or a slash. */
  lemma StepKeepsWf(signed: Signed, ch: Chain, h: int, m: Msg)
    requires ChainWf(ch)
    ensures ChainWf(Step(signed, ch, h, m))
    ensures var r := Step(signed, ch, h, m);
      r.session.Some? ==> ch.session.Some? && SameRules(ch.session.value, r.session.value) && Extends(ch.session.value, r.session.value)
    ensures ch.jailed <= Step(signed, ch, h, m).jailed
  {
    if ch.session.Some? {
      var s := ch.session.value;
      match m {
        case Commit(d, cs) => CommitWf(s, h, d, cs);
        case ComplainMissing(c) =>
          if MissingStep(s, h, c).Ok? { RecordsWf(s, MissingStep(s, h, c).value); }
        case ComplainInvalid(c, share) =>
          var r := InvalidStep(s, h, c, share, (c.dealer, c.complainer, share) in signed);
          if r.Ok? { RecordsWf(s, r.value); }
        case Reveal(d, to, share) => RevealWf(s, h, d, to, share);
        case Finalize =>
        case Timeout =>
          if h > s.commitBy { RecordsWf(s, s.(slashed := s.slashed + Silent(s))); }
      }
    }
  }

  ghost predicate Extends(s: Session, t: Session) {
    && (forall d :: d in s.commits ==> d in t.commits && t.commits[d] == s.commits[d])
    && (forall c :: c in s.complaints ==> c in t.complaints)
    && (forall k :: k in s.revealed ==> k in t.revealed && t.revealed[k] == s.revealed[k])
    && s.slashed <= t.slashed
  }

  /** Complaints and slashes do not touch what makes a session well formed. */
  lemma RecordsWf(s: Session, t: Session)
    requires Wf(s) && SameRules(s, t) && t.commits == s.commits && t.revealed == s.revealed
    ensures Wf(t)
  {
    forall d, to | (d, to) in t.revealed
      ensures RevealMatches(t, d, to)
    {
      assert RevealMatches(s, d, to);
    }
  }

  lemma CommitWf(s: Session, h: int, d: Id, cs: seq<Point>)
    requires Wf(s)
    ensures CommitStep(s, h, d, cs).Ok? ==> Wf(CommitStep(s, h, d, cs).value)
  {
    if CommitStep(s, h, d, cs).Ok? {
      var t := CommitStep(s, h, d, cs).value;
      forall x, to | (x, to) in t.revealed
        ensures RevealMatches(t, x, to)
      {
        assert RevealMatches(s, x, to);
      }
    }
  }

  lemma RevealWf(s: Session, h: int, d: Id, to: Id, share: Scalar)
    requires Wf(s)
    ensures RevealStep(s, h, d, to, share).Ok? ==> Wf(RevealStep(s, h, d, to, share).value)
  {
    if RevealStep(s, h, d, to, share).Ok? {
      var t := RevealStep(s, h, d, to, share).value;
      forall x, y | (x, y) in t.revealed
        ensures RevealMatches(t, x, y)
      {
        if (x, y) != (d, to) { assert RevealMatches(s, x, y); }
      }
    }
  }
}
