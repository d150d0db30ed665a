/** The key generation as the chain runs it: an object its transactions update in place, tied to the steps in `Dkg`. */
module DkgMachine {
  import opened Zq
  import opened Outcome
  import opened Lagrange
  import opened Feldman
  import opened Dkg

  /** The silent among the first `n` members. */
  ghost function SilentUpTo(s: Session, n: nat): set<Id>
    requires n <= |s.members|
  {
    set i | 0 <= i < n && s.members[i].id !in s.commits :: s.members[i].id
  }

  /** The accused by the first `n` complaints. */
  ghost function AccusedUpTo(s: Session, n: nat): set<Id>
    requires n <= |s.complaints|
  {
    set i | 0 <= i < n && !Answered(s, s.complaints[i]) :: s.complaints[i].dealer
  }

  lemma SilentStep(s: Session, n: nat)
    requires n < |s.members|
    ensures SilentUpTo(s, n + 1) == SilentUpTo(s, n) + (if s.members[n].id !in s.commits then {s.members[n].id} else {})
  {
  }

  lemma AccusedStep(s: Session, n: nat)
    requires n < |s.complaints|
    ensures AccusedUpTo(s, n + 1) == AccusedUpTo(s, n) + (if Answered(s, s.complaints[n]) then {} else {s.complaints[n].dealer})
  {
  }

  class Machine {
    const threshold: nat
    const members: seq<Member>
    const commitBy: int
    const complainBy: int
    const revealBy: int
    var commits: map<Id, seq<Point>>
    var complaints: seq<Complaint>
    var revealed: map<(Id, Id), Scalar>
    var slashed: set<Id>

    ghost function View(): Session
      reads this
    {
      Session(threshold, members, commitBy, complainBy, revealBy, commits, complaints, revealed, slashed)
    }

    /** The session `dealerBeginEpoch` opens for the sampled committee at height `start`. */
    constructor (committee: seq<Id>, t: nat, start: int, commitBlocks: nat, complaintBlocks: nat, revealBlocks: nat)
      requires 0 < t <= |committee| && 0 < commitBlocks && 0 < complaintBlocks && 0 < revealBlocks
      requires forall i :: 0 <= i < |committee| ==> committee[i] != ""
      requires forall i, j :: 0 <= i < j < |committee| ==> committee[i] != committee[j]
      ensures Wf(View()) && commits == map[] && complaints == [] && revealed == map[] && slashed == {}
      ensures threshold == t && |members| == |committee| && forall i :: 0 <= i < |committee| ==> members[i] == Member(committee[i], i + 1)
      ensures commitBy == start + commitBlocks && complainBy == commitBy + complaintBlocks && revealBy == complainBy + revealBlocks
    {
      threshold := t;
      members := seq(|committee|, i requires 0 <= i < |committee| => Member(committee[i], i + 1));
      commitBy := start + commitBlocks;
      complainBy := start + commitBlocks + complaintBlocks;
      revealBy := start + commitBlocks + complaintBlocks + revealBlocks;
      commits, complaints, revealed, slashed := map[], [], map[], {};
    }

    /** `findDKGMember`, down to the index. */
    method FindMember(id: Id) returns (r: Option<nat>)
      ensures r == IndexOf(members, id)
    {
      for i := 0 to |members|
        invariant IndexOf(members, id) == IndexOf(members[i..], id)
      {
        assert members[i..][1..] == members[i + 1..];
        if members[i].id == id {
          return Some(members[i].index);
        }
      }
      r := None;
    }

    method Commit(h: int, dealer: Id, cs: seq<Point>) returns (ok: bool)
      modifies this
      ensures ok <==> CommitStep(old(View()), h, dealer, cs).Ok?
      ensures View() == if ok then CommitStep(old(View()), h, dealer, cs).value else old(View())
    {
      if h > commitBy || dealer == "" {
        return false;
      }
      var m := FindMember(dealer);
      if m.None? || dealer in commits || |cs| != threshold {
        return false;
      }
      commits := commits[dealer := cs];
      ok := true;
    }

    method CheckComplaint(h: int, c: Complaint) returns (to: Option<nat>)
      ensures to.Some? <==> MayComplain(View(), h, c)
      ensures to.Some? ==> to == IndexOf(members, c.complainer)
    {
      if h < commitBy || h > complainBy || c.complainer == "" || c.dealer == "" || c.complainer == c.dealer {
        return None;
      }
      var from := FindMember(c.complainer);
      var against := FindMember(c.dealer);
      if from.None? || against.None? || c in complaints {
        return None;
      }
      to := from;
    }

    method ComplainMissing(h: int, c: Complaint) returns (ok: bool)
      modifies this
      ensures ok <==> MissingStep(old(View()), h, c).Ok?
      ensures View() == if ok then MissingStep(old(View()), h, c).value else old(View())
    {
      var to := CheckComplaint(h, c);
      if to.None? {
        return false;
      }
      complaints := complaints + [c];
      ok := true;
    }

    method ComplainInvalid(h: int, c: Complaint, share: Scalar, signed: bool) returns (ok: bool)
      modifies this
      ensures ok <==> InvalidStep(old(View()), h, c, share, signed).Ok?
      ensures View() == if ok then InvalidStep(old(View()), h, c, share, signed).value else old(View())
    {
      var to := CheckComplaint(h, c);
      if to.None? || !signed {
        return false;
      }
      if c.dealer in commits {
        var matches := VerifyShare(commits[c.dealer], to.value, share);
        if matches {
          return false;
        }
      }
      slashed := slashed + {c.dealer};
      complaints := complaints + [c];
      ok := true;
    }

    method Reveal(h: int, dealer: Id, to: Id, share: Scalar) returns (ok: bool)
      modifies this
      ensures ok <==> RevealStep(old(View()), h, dealer, to, share).Ok?
      ensures View() == if ok then RevealStep(old(View()), h, dealer, to, share).value else old(View())
    {
      if h > revealBy || dealer == "" || to == "" || dealer == to {
        return false;
      }
      var d := FindMember(dealer);
      var m := FindMember(to);
      if d.None? || m.None? || Complaint(to, dealer) !in complaints || (dealer, to) in revealed || dealer !in commits {
        return false;
      }
      var matches := VerifyShare(commits[dealer], m.value, share);
      if !matches {
        return false;
      }
      revealed := revealed[(dealer, to) := share];
      ok := true;
    }

    /** Whether the complaint has a verifying answer. */
    method IsAnswered(c: Complaint) returns (yes: bool)
      ensures yes <==> Answered(View(), c)
    {
      if c.dealer !in commits || (c.dealer, c.complainer) !in revealed {
        return false;
      }
      var to := FindMember(c.complainer);
      if to.None? {
        return false;
      }
      yes := VerifyShare(commits[c.dealer], to.value, revealed[(c.dealer, c.complainer)]);
    }

    method SlashSilent()
      modifies this`slashed
      ensures slashed == old(slashed) + Silent(old(View()))
    {
      ghost var s := View();
      for i := 0 to |members|
        invariant slashed == s.slashed + SilentUpTo(s, i)
      {
        SilentStep(s, i);
        if members[i].id !in commits {
          slashed := slashed + {members[i].id};
        }
      }
      assert SilentUpTo(s, |members|) == Silent(s);
    }

    method SlashAccused()
      modifies this`slashed
      ensures slashed == old(slashed) + Accused(old(View()))
    {
      ghost var s := View();
      for i := 0 to |complaints|
        invariant slashed == s.slashed + AccusedUpTo(s, i)
      {
        AccusedStep(s, i);
        var c := complaints[i];
        if c.dealer !in slashed {
          var yes := IsAnswered(c);
          assert Answered(View(), c) <==> Answered(s, c);
          if !yes {
            slashed := slashed + {c.dealer};
          }
        }
      }
      assert AccusedUpTo(s, |complaints|) == Accused(s);
    }

    method QualDealers() returns (qual: seq<Member>)
      ensures qual == Qual(members, slashed)
    {
      qual := [];
      for i := 0 to |members|
        invariant qual == Qual(members[..i], slashed)
      {
        QualStep(members, slashed, i);
        if members[i].id !in slashed {
          qual := qual + [members[i]];
        }
      }
      assert members[..|members|] == members;
    }

    /** The keys of the epoch from the commitments of the qualified dealers. */
    method EpochKeys(qual: seq<Member>) returns (e: Epoch)
      requires Wf(View()) && qual == Qual(members, slashed) && Committed(View(), qual)
      ensures e == EpochOf(View(), slashed)
    {
      hide Eval, Mod;
      var css: seq<seq<Point>> := [];
      for i := 0 to |qual|
        invariant |css| == i && forall j :: 0 <= j < i ==> css[j] == commits[qual[j].id]
      {
        css := css + [commits[qual[i].id]];
      }
      assert css == CommitsOf(View(), qual);
      var pk := JointKey(css, threshold);
      ghost var F := EpochPoly(View(), slashed);
      var shares: seq<Point> := [];
      for i := 0 to |members|
        invariant |shares| == i && forall j :: 0 <= j < i ==> shares[j] == Point(Mod(Eval(F, members[j].index)))
      {
        var Y := JointShare(css, threshold, members[i].index);
        shares := shares + [Y];
      }
      e := Epoch(threshold, pk, members, shares, slashed);
    }

    /** `dealerFinalizeEpoch` */
    method Finalize(h: int) returns (r: Result<Verdict>)
      requires Wf(View())
      modifies this
      ensures r == FinalizeStep(old(View()), h)
      ensures View() == if r.Ok? then old(View()).(slashed := FinalSlashed(old(View()))) else old(View())
    {
      if h <= revealBy {
        return Err;
      }
      ghost var s := View();
      SlashSilent();
      ghost var t := View();
      assert Accused(t) == Accused(s) by { assert forall c :: Answered(t, c) <==> Answered(s, c); }
      SlashAccused();
      assert slashed == FinalSlashed(s);
      var qual := QualDealers();
      if |qual| < threshold {
        return Ok(Aborted);
      }
      QualCommitted(s, slashed);
      RecordsWf(s, View());
      assert CommitsOf(View(), qual) == CommitsOf(s, qual);
      var e := EpochKeys(qual);
      assert EpochPoly(View(), slashed) == EpochPoly(s, slashed);
      r := Ok(Finalized(e));
    }

    /** `dealerDKGTimeout` */
    method Timeout(h: int) returns (r: Result<Verdict>)
      requires Wf(View())
      modifies this
      ensures r.Ok? <==> TimeoutStep(old(View()), h).Ok?
      ensures r.Ok? ==> (r.value, View()) == TimeoutStep(old(View()), h).value
      ensures r.Err? ==> View() == old(View())
    {
      if h <= commitBy {
        return Err;
      }
      ghost var s := View();
      SlashSilent();
      RecordsWf(s, View());
      var qual := QualDealers();
      if |qual| < threshold {
        return Ok(Aborted);
      }
      if h > revealBy {
        r := Finalize(h);
      } else {
        r := Ok(Running);
      }
    }
  }
}
