/**
 The client's choice of relays by measured loss: relays in use are good, relays that lost too much are bad until the
 resources are released.
 */
module GoodRelays {
  import opened Protocol

  datatype Relay = Relay(addr: Word, bandwidth: nat, lossrate: nat)
  datatype Requirement = Requirement(bandwidth: nat, lossrate: nat, relaynum: nat)

  ghost predicate Listed(rs: seq<Relay>, addr: Word) {
    exists i :: 0 <= i < |rs| && rs[i].addr == addr
  }

  ghost predicate NoRepeat(rs: seq<Relay>) {
    forall i, j :: 0 <= i < j < |rs| ==> rs[i].addr != rs[j].addr
  }

  ghost predicate Apart(rs: seq<Relay>, ss: seq<Relay>) {
    forall i :: 0 <= i < |rs| ==> !Listed(ss, rs[i].addr)
  }

  ghost function Bandwidth(rs: seq<Relay>): nat {
    if rs == [] then 0 else Bandwidth(rs[..|rs| - 1]) + rs[|rs| - 1].bandwidth
  }

  ghost predicate Meets(rs: seq<Relay>, rq: Requirement) {
    Bandwidth(rs) >= rq.bandwidth && |rs| >= rq.relaynum
  }

  /** The good relays that stay: still listed, and with little enough loss. */
  ghost function Kept(good: seq<Relay>, list: seq<Relay>, most: nat): seq<Relay> {
    if good == [] then []
    else
      var r := good[|good| - 1];
      Kept(good[..|good| - 1], list, most) + if Listed(list, r.addr) && r.lossrate < most then [r] else []
  }

  /** The good relays that turn bad: still listed, but with too much loss. */
  ghost function Turned(good: seq<Relay>, list: seq<Relay>, most: nat): seq<Relay> {
    if good == [] then []
    else
      var r := good[|good| - 1];
      Turned(good[..|good| - 1], list, most) + if Listed(list, r.addr) && r.lossrate >= most then [r] else []
  }

  /** `good` after the listed relays that are neither good nor bad joined it, in the order of the list. */
  ghost function Joined(good: seq<Relay>, bad: seq<Relay>, list: seq<Relay>): seq<Relay> {
    if list == [] then good
    else
      var rest := Joined(good, bad, list[..|list| - 1]);
      var r := list[|list| - 1];
      if Listed(bad, r.addr) || Listed(rest, r.addr) then rest else rest + [r]
  }

  lemma ListedPush(rs: seq<Relay>, r: Relay)
    ensures forall a {:trigger Listed(rs + [r], a)} :: Listed(rs + [r], a) <==> Listed(rs, a) || a == r.addr
  {
    forall a ensures Listed(rs + [r], a) <==> Listed(rs, a) || a == r.addr {
      assert (rs + [r])[|rs|] == r;
      if Listed(rs, a) {
        var i :| 0 <= i < |rs| && rs[i].addr == a;
        assert (rs + [r])[i] == rs[i];
      }
    }
  }

  /** Sorting the good ones out keeps everything apart, and everything stays within the list. */
  lemma {:induction false} SortedOut(good: seq<Relay>, bad: seq<Relay>, list: seq<Relay>, most: nat)
    requires NoRepeat(good) && Apart(good, bad)
    ensures var kept, bad' := Kept(good, list, most), bad + Turned(good, list, most);
            && NoRepeat(kept) && Apart(kept, bad')
            && (forall a {:trigger Listed(kept, a)} :: Listed(kept, a) ==> Listed(list, a) && Listed(good, a))
            && (forall a {:trigger Listed(bad', a)} :: Listed(bad', a) ==> Listed(bad, a) || Listed(good, a))
            && (forall a {:trigger Listed(bad, a)} :: Listed(bad, a) ==> Listed(bad', a))
  {
    if good == [] {
      assert bad + [] == bad;
    } else {
      var n := |good| - 1;
      var r := good[n];
      var init := good[..n];
      SortedOut(init, bad, list, most);
      assert good == init + [r];
      ListedPush(init, r);
      var kept, bad' := Kept(init, list, most), bad + Turned(init, list, most);
      NotAgain(init, r, good);
      assert !Listed(bad, r.addr) by { assert good[n] == r; }
      if Listed(list, r.addr) && r.lossrate < most {
        assert bad + (Turned(init, list, most) + []) == bad';
        ListedPush(kept, r);
        PushApart(kept, bad', r);
      } else if Listed(list, r.addr) {
        assert bad + (Turned(init, list, most) + [r]) == bad' + [r];
        assert kept + [] == kept;
        ListedPush(bad', r);
        ApartPush(kept, bad', r);
      } else {
        assert bad + (Turned(init, list, most) + []) == bad' && kept + [] == kept;
      }
    }
  }

  /** A relay in use stays when it is listed with little enough loss; listed with too much it turns bad. */
  lemma {:induction false} Sorts(good: seq<Relay>, list: seq<Relay>, most: nat)
    ensures forall r :: r in Kept(good, list, most) <==>
              r in good && r.lossrate < most && exists i :: 0 <= i < |list| && list[i].addr == r.addr
    ensures forall r :: r in Turned(good, list, most) <==>
              r in good && r.lossrate >= most && exists i :: 0 <= i < |list| && list[i].addr == r.addr
  {
    if good != [] {
      var n := |good| - 1;
      Sorts(good[..n], list, most);
      assert good == good[..n] + [good[n]];
    }
  }

  /** Joined relays come from the list. */
  lemma {:induction false} JoinedFrom(good: seq<Relay>, bad: seq<Relay>, list: seq<Relay>)
    ensures forall r :: r in Joined(good, bad, list) ==> r in good || r in list
  {
    if list != [] { JoinedFrom(good, bad, list[..|list| - 1]); }
  }

  lemma NotAgain(init: seq<Relay>, r: Relay, good: seq<Relay>)
    requires NoRepeat(good) && good == init + [r]
    ensures !Listed(init, r.addr) && NoRepeat(init)
  {
    forall i | 0 <= i < |init| ensures init[i].addr != r.addr {
      assert good[i] == init[i] && good[|init|] == r;
    }
    forall i, j | 0 <= i < j < |init| ensures init[i].addr != init[j].addr {
      assert good[i] == init[i] && good[j] == init[j];
    }
  }

  lemma PushApart(kept: seq<Relay>, bad: seq<Relay>, r: Relay)
    requires NoRepeat(kept) && Apart(kept, bad) && !Listed(bad, r.addr) && !Listed(kept, r.addr)
    ensures NoRepeat(kept + [r]) && Apart(kept + [r], bad)
  {
  }

  lemma ApartPush(kept: seq<Relay>, bad: seq<Relay>, r: Relay)
    requires Apart(kept, bad) && !Listed(kept, r.addr)
    ensures Apart(kept, bad + [r])
  {
    ListedPush(bad, r);
  }

  /** Joining keeps good relays distinct and away from bad ones, and leaves no listed relay out. */
  lemma {:induction false} JoinedFacts(good: seq<Relay>, bad: seq<Relay>, list: seq<Relay>)
    requires NoRepeat(good) && Apart(good, bad)
    ensures var r := Joined(good, bad, list);
            && NoRepeat(r) && Apart(r, bad) && good <= r
            && (forall a {:trigger Listed(r, a)} :: Listed(r, a) ==> Listed(good, a) || Listed(list, a))
            && (forall i :: 0 <= i < |list| ==> Listed(r, list[i].addr) || Listed(bad, list[i].addr))
  {
    if list != [] {
      var n := |list| - 1;
      JoinedFacts(good, bad, list[..n]);
      var rest, r := Joined(good, bad, list[..n]), list[n];
      assert list == list[..n] + [r];
      ListedPush(list[..n], r);
      ListedPush(rest, r);
      if !Listed(bad, r.addr) && !Listed(rest, r.addr) { PushApart(rest, bad, r); }
      forall i | 0 <= i < n ensures Listed(rest, list[i].addr) || Listed(bad, list[i].addr) {
        assert list[..n][i] == list[i];
      }
    }
  }

  class StatMpathManager {
    var goodrelays: seq<Relay>
    var badrelays: seq<Relay>

    /** No relay is good twice, and none is good and bad. */
    ghost predicate Valid()
      reads this
    {
      NoRepeat(goodrelays) && Apart(goodrelays, badrelays)
    }

    constructor ()
      ensures Valid() && goodrelays == [] && badrelays == []
    {
      goodrelays, badrelays := [], [];
    }

    static method Find(rs: seq<Relay>, addr: Word) returns (i: nat)
      ensures i <= |rs| && (i < |rs| <==> Listed(rs, addr)) && (i < |rs| ==> rs[i].addr == addr)
    {
      i := 0;
      while i < |rs|
        invariant 0 <= i <= |rs| && forall j :: 0 <= j < i ==> rs[j].addr != addr
      {
        if rs[i].addr == addr { return; }
        i := i + 1;
      }
    }

    /** Drops or turns bad the good relays that are unlisted or lossy; adds up the bandwidth of the rest. */
    method SortOut(list: seq<Relay>, rq: Requirement) returns (gain: nat)
      modifies this
      ensures goodrelays == Kept(old(goodrelays), list, rq.lossrate)
      ensures badrelays == old(badrelays) + Turned(old(goodrelays), list, rq.lossrate)
      ensures gain == Bandwidth(goodrelays)
    {
      hide Listed, Bandwidth, Kept, Turned;
      SortNone(list, rq.lossrate);
      gain := 0;
      ghost var all, done := goodrelays, 0;
      assert all[..0] == [] && badrelays + [] == badrelays;
      var i := 0;
      while i < |goodrelays|
        invariant 0 <= done <= |all| && i == |Kept(all[..done], list, rq.lossrate)|
        invariant goodrelays == Kept(all[..done], list, rq.lossrate) + all[done..]
        invariant badrelays == old(badrelays) + Turned(all[..done], list, rq.lossrate)
        invariant gain == Bandwidth(Kept(all[..done], list, rq.lossrate))
        decreases |all| - done
      {
        ghost var kept := Kept(all[..done], list, rq.lossrate);
        var r := goodrelays[i];
        SortStep(all, done, list, rq.lossrate);
        assert goodrelays == kept + [r] + all[done + 1..] && kept + [] == kept;
        var at := Find(list, r.addr);
        if at < |list| && r.lossrate < rq.lossrate {
          BandwidthPush(kept, r);
          gain := gain + r.bandwidth;
          i := i + 1;
        } else {
          if at < |list| { badrelays := badrelays + [r]; }
          goodrelays := goodrelays[..i] + goodrelays[i + 1..];
          assert goodrelays == kept + all[done + 1..];
        }
        done := done + 1;
      }
      assert all[..done] == all && all[done..] == [];
    }

    /** Adds listed relays that are neither good nor bad, until the requirement is met or the list ends. */
    method AddRelays(list: seq<Relay>, rq: Requirement, start: nat) returns (met: bool, ghost n: nat)
      requires start == Bandwidth(goodrelays) && !Meets(goodrelays, rq)
      modifies this`goodrelays
      ensures n <= |list| && goodrelays == Joined(old(goodrelays), badrelays, list[..n])
      ensures met == Meets(goodrelays, rq) && (!met ==> n == |list|)
      ensures forall m :: 0 <= m < n ==> !Meets(Joined(old(goodrelays), badrelays, list[..m]), rq)
    {
      hide Listed, Bandwidth;
      var gain, i := start, 0;
      assert list[..0] == [];
      while i < |list|
        invariant 0 <= i <= |list| && goodrelays == Joined(old(goodrelays), badrelays, list[..i])
        invariant gain == Bandwidth(goodrelays) && !Meets(goodrelays, rq)
        invariant forall m :: 0 <= m <= i ==> !Meets(Joined(old(goodrelays), badrelays, list[..m]), rq)
      {
        var r := list[i];
        assert list[..i + 1][..i] == list[..i];
        i := i + 1;
        var badAt := Find(badrelays, r.addr);
        if badAt < |badrelays| { continue; }
        var goodAt := Find(goodrelays, r.addr);
        if goodAt == |goodrelays| {
          BandwidthPush(goodrelays, r);
          goodrelays := goodrelays + [r];
          gain := gain + r.bandwidth;
          if gain >= rq.bandwidth && |goodrelays| >= rq.relaynum { return true, i; }
        }
      }
      assert list[..i] == list;
      return false, i;
    }

    /**
     Brings the good relays in line with the list and the requirement.  They stay distinct, within the list and
     apart from the bad ones, who only grow in number: what turned bad is not chosen again.  The answer is whether
     the requirement is met; when it is not, every listed relay is already good or bad.
     */
    method GetRequirement(list: seq<Relay>, rq: Requirement) returns (met: bool)
      requires Valid()
      modifies this
      ensures Valid()
      ensures list == [] ==> !met && goodrelays == old(goodrelays) && badrelays == old(badrelays)
      ensures list != [] ==>
                && badrelays == old(badrelays) + Turned(old(goodrelays), list, rq.lossrate)
                && (met <==> Bandwidth(goodrelays) >= rq.bandwidth && |goodrelays| >= rq.relaynum)
                && (forall r :: r in badrelays <==>
                      || r in old(badrelays)
                      || (&& r in old(goodrelays) && r.lossrate >= rq.lossrate
                          && exists i :: 0 <= i < |list| && list[i].addr == r.addr))
                && (forall r :: (&& r in old(goodrelays) && r.lossrate < rq.lossrate
                                 && exists i :: 0 <= i < |list| && list[i].addr == r.addr) ==> r in goodrelays)
                && (forall r :: r in goodrelays ==> r in list || (r in old(goodrelays) && r.lossrate < rq.lossrate))
                && (forall a {:trigger Listed(goodrelays, a)} :: Listed(goodrelays, a) ==> Listed(list, a))
                && Kept(old(goodrelays), list, rq.lossrate) <= goodrelays
                && (!met ==> forall i :: 0 <= i < |list| ==>
                      Listed(goodrelays, list[i].addr) || Listed(badrelays, list[i].addr))
      ensures list != [] ==>
                exists n {:trigger list[..n]} :: 0 <= n <= |list| &&
                  goodrelays == Joined(Kept(old(goodrelays), list, rq.lossrate), badrelays, list[..n]) &&
                  forall m {:trigger list[..m]} :: 0 <= m < n ==>
                    !Meets(Joined(Kept(old(goodrelays), list, rq.lossrate), badrelays, list[..m]), rq)
      ensures forall a {:trigger Listed(old(badrelays), a)} :: Listed(old(badrelays), a) ==>
                Listed(badrelays, a) && !Listed(goodrelays, a)
    {
      hide Listed, Bandwidth, NoRepeat, Kept, Turned, Joined;
      if list == [] {
        BadNotGood(goodrelays, badrelays);
        return false;
      }
      SortedOut(goodrelays, badrelays, list, rq.lossrate);
      Sorts(goodrelays, list, rq.lossrate);
      var gain := SortOut(list, rq);
      ghost var kept, n := goodrelays, 0;
      assert list[..0] == [];
      JoinNone(kept, badrelays);
      if gain >= rq.bandwidth && |goodrelays| >= rq.relaynum {
        met := true;
      } else {
        met, n := AddRelays(list, rq, gain);
      }
      JoinedFacts(kept, badrelays, list[..n]);
      JoinedFrom(kept, badrelays, list[..n]);
      Prefix(list, n);
      assert !met ==> list[..n] == list;
      BadNotGood(goodrelays, badrelays);
    }

    /** Only this forgets what was bad. */
    method ReleaseResources()
      modifies this
      ensures Valid() && goodrelays == [] && badrelays == []
    {
      goodrelays, badrelays := [], [];
    }
  }

  lemma SortNone(list: seq<Relay>, most: nat)
    ensures Kept([], list, most) == [] && Turned([], list, most) == [] && Bandwidth([]) == 0
  {
  }

  lemma SortStep(all: seq<Relay>, i: nat, list: seq<Relay>, most: nat)
    requires i < |all|
    ensures Kept(all[..i + 1], list, most)
            == Kept(all[..i], list, most) + if Listed(list, all[i].addr) && all[i].lossrate < most then [all[i]] else []
    ensures Turned(all[..i + 1], list, most)
            == Turned(all[..i], list, most) +
               if Listed(list, all[i].addr) && all[i].lossrate >= most then [all[i]] else []
  {
    hide Listed;
    assert all[..i + 1][..i] == all[..i];
  }

  lemma BandwidthPush(rs: seq<Relay>, r: Relay)
    ensures Bandwidth(rs + [r]) == Bandwidth(rs) + r.bandwidth
  {
    assert (rs + [r])[..|rs|] == rs;
  }

  lemma JoinNone(good: seq<Relay>, bad: seq<Relay>)
    ensures Joined(good, bad, []) == good
  {
  }

  lemma Prefix(list: seq<Relay>, n: nat)
    requires n <= |list|
    ensures forall a {:trigger Listed(list[..n], a)} :: Listed(list[..n], a) ==> Listed(list, a)
  {
  }

  lemma BadNotGood(good: seq<Relay>, bad: seq<Relay>)
    requires Apart(good, bad)
    ensures forall a {:trigger Listed(bad, a)} {:trigger Listed(good, a)} :: !(Listed(bad, a) && Listed(good, a))
  {
  }
}
