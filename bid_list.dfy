/**
 * The bid list of a job page (frontend/src/components/BidList.jsx): the connected
 * account's own bid is shown first, then every bid placed by anyone else.
 * Addresses are compared case-insensitively.
 */
module BidList {
  import opened Wrappers
  import opened Escrow
  import Seqs

  /** `toLowerCase` on one character of a hexadecimal address. */
  function LowerChar(c: char): (d: char)
    ensures !('A' <= d <= 'Z')
    ensures 'A' <= c <= 'Z' ==> d as int == c as int + 32
    ensures !('A' <= c <= 'Z') ==> d == c
  {
    if 'A' <= c <= 'Z' then (c as int + 32) as char else c
  }

  /** Lower-cases the ASCII capitals of `s` and keeps every other character. */
  function ToLower(s: string): (r: string)
    ensures |r| == |s|
    ensures forall i :: 0 <= i < |s| ==> r[i] == LowerChar(s[i])
  {
    seq(|s|, i requires 0 <= i < |s| => LowerChar(s[i]))
  }

  /** `a.toLowerCase() === b.toLowerCase()`. */
  predicate SameAddress(a: string, b: string): (r: bool)
    ensures a == b ==> r
    ensures ToLower(a) == a && ToLower(b) == b ==> (r <==> a == b)
  {
    ToLower(a) == ToLower(b)
  }

  /** Lower-casing twice is lower-casing once. */
  lemma ToLowerIdempotent(s: string)
    ensures ToLower(ToLower(s)) == ToLower(s)
  {
    var t := ToLower(s);
    assert forall i :: 0 <= i < |t| ==> ToLower(t)[i] == t[i];
  }

  /** Matching ignores case: an address matches its lower-case spelling, and respelling either side keeps the verdict. */
  lemma SameAddressIgnoresCase(a: string, a': string, b: string)
    ensures SameAddress(a, ToLower(a))
    ensures ToLower(a) == ToLower(a') ==> (SameAddress(a, b) <==> SameAddress(a', b))
  {
    ToLowerIdempotent(a);
  }

  /** The bid was placed by the connected account. */
  predicate Mine(bid: Bid, account: Address): (r: bool)
    ensures bid.bidder == account ==> r
    ensures ToLower(bid.bidder) == bid.bidder && ToLower(account) == account ==> (r <==> bid.bidder == account)
  {
    SameAddress(bid.bidder, account)
  }

  /** The index of the last bid of `account`, if it has one. */
  function LastOwnBid(bids: seq<Bid>, account: Address): (r: Option<nat>)
    ensures r.Some? ==> r.value < |bids| && Mine(bids[r.value], account)
    ensures r.Some? ==> forall j :: r.value < j < |bids| ==> !Mine(bids[j], account)
    ensures r.None? <==> forall j :: 0 <= j < |bids| ==> !Mine(bids[j], account)
  {
    if bids == [] then None
    else if Mine(bids[|bids| - 1], account) then Some(|bids| - 1)
    else
      var rest := bids[..|bids| - 1];
      assert forall j :: 0 <= j < |rest| ==> rest[j] == bids[j];
      LastOwnBid(rest, account)
  }

  /**
   * The effect of lines 11-17 as written: starting from the bid already held in
   * state, every bid of the account overwrites it, so the last one wins; with no
   * bid of the account the previous value stays.
   */
  method SelectUserBid(bids: seq<Bid>, account: Address, previous: Option<Bid>) returns (userBid: Option<Bid>)
    ensures LastOwnBid(bids, account).Some? ==> userBid == Some(bids[LastOwnBid(bids, account).value])
    ensures LastOwnBid(bids, account).None? ==> userBid == previous
  {
    userBid := previous;
    var i := 0;
    while i < |bids|
      invariant 0 <= i <= |bids|
      invariant LastOwnBid(bids[..i], account).Some? ==> userBid == Some(bids[LastOwnBid(bids[..i], account).value])
      invariant LastOwnBid(bids[..i], account).None? ==> userBid == previous
    {
      assert bids[..i + 1][..i] == bids[..i];
      if SameAddress(bids[i].bidder, account) {
        userBid := Some(bids[i]);
      }
      i := i + 1;
    }
    assert bids[..i] == bids;
  }

  /**
   * The own-bid selection with the state reset before the scan: the slot shows the
   * account's last bid, and nothing when the account has no bid.
   */
  method OwnBid(bids: seq<Bid>, account: Address) returns (userBid: Option<Bid>)
    ensures userBid.Some? <==> exists k :: 0 <= k < |bids| && Mine(bids[k], account)
    ensures userBid.Some? ==> Mine(userBid.value, account)
    ensures userBid.Some? ==> userBid == Some(bids[LastOwnBid(bids, account).value])
  {
    userBid := SelectUserBid(bids, account, None);
  }

  /** Lines 40-41: the bids of everyone but the account, in list order. */
  function Others(bids: seq<Bid>, account: Address): (r: seq<Bid>)
    ensures |r| <= |bids|
    ensures forall b :: b in r <==> b in bids && !Mine(b, account)
  {
    if bids == [] then []
    else
      var last := bids[|bids| - 1];
      Others(bids[..|bids| - 1], account) + (if Mine(last, account) then [] else [last])
  }

  /** The number of bids the account placed. */
  function CountOwn(bids: seq<Bid>, account: Address): nat
  {
    if bids == [] then 0
    else CountOwn(bids[..|bids| - 1], account) + (if Mine(bids[|bids| - 1], account) then 1 else 0)
  }

  /** Every bid is either the account's own or in the others list. */
  lemma {:induction false} OwnAndOthers(bids: seq<Bid>, account: Address)
    ensures CountOwn(bids, account) + |Others(bids, account)| == |bids|
  {
    if bids != [] {
      OwnAndOthers(bids[..|bids| - 1], account);
    }
  }

  /** Filtering a concatenation filters each part, in order: the others keep list order. */
  lemma {:induction false} OthersAppend(p: seq<Bid>, q: seq<Bid>, account: Address)
    ensures Others(p + q, account) == Others(p, account) + Others(q, account)
  {
    if q == [] {
      assert p + q == p;
    } else {
      var q', last := q[..|q| - 1], q[|q| - 1];
      assert (p + q)[..|p + q| - 1] == p + q' && (p + q)[|p + q| - 1] == last;
      OthersAppend(p, q', account);
      Seqs.AppendAssoc(Others(p, account), Others(q', account), if Mine(last, account) then [] else [last]);
    }
  }

  /** Every bid of the account lies at or before its last own bid, and none is among the others. */
  lemma EarlierOwnBidHidden(bids: seq<Bid>, account: Address, k: nat)
    requires k < |bids| && Mine(bids[k], account)
    ensures LastOwnBid(bids, account).Some? && k <= LastOwnBid(bids, account).value
    ensures bids[k] !in Others(bids, account)
  {
  }

  /** What the component renders. */
  datatype View = NoBids | Listing(own: Option<Bid>, others: seq<Bid>)

  /** Lines 19-53: 'No bids yet' for an empty list, otherwise the own bid and the others. */
  function Render(bids: seq<Bid>, account: Address, userBid: Option<Bid>): (v: View)
    ensures v.NoBids? <==> bids == []
    ensures v.Listing? ==> forall b :: b in v.others ==> !Mine(b, account)
  {
    if |bids| == 0 then NoBids else Listing(userBid, Others(bids, account))
  }

  /**
   * As written, the selection keeps the previous account's bid after the connected
   * account changes: with the bid of 0xA1 held in state and 0xB2 connected, the own
   * slot still shows 0xA1's bid, which the others list shows as well.
   */
  method StaleUserBidAfterAccountSwitch() returns (userBid: Option<Bid>, view: View)
    ensures userBid.Some? && !Mine(userBid.value, "0xB2")
    ensures view.Listing? && view.own == userBid && userBid.value in view.others
  {
    var stale := Bid("0xA1", 1, false);
    assert ToLower("0xA1")[3] != ToLower("0xB2")[3];
    userBid := SelectUserBid([stale], "0xB2", Some(stale));
    view := Render([stale], "0xB2", userBid);
  }

  /** A bid of the account in the own slot, as OwnBid guarantees, is shown once: it is not among the others. */
  lemma OwnSlotNotRepeated(bids: seq<Bid>, account: Address, userBid: Option<Bid>)
    requires bids != []
    requires userBid.Some? && Mine(userBid.value, account)
    ensures Render(bids, account, userBid).own == userBid
    ensures userBid.value !in Render(bids, account, userBid).others
  {
  }
}
