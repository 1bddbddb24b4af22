/** The verdict of the unread check on real listings: both listings are taken page by page from a
    mailbox that keeps changing, and the verdict is compared with what really happened. */
module MailVerdict {
  import opened Keyed
  import opened MailPaging
  import opened MailUnread
  import opened MailHistory

  /** The mail server answering its n-th call at time times(n). */
  function Timed(mails: seq<Mail>, times: nat -> nat): Server {
    (n: nat, cursor: nat) => Some(Serve(View(mails, times(n)), cursor, times(n)))
  }

  ghost predicate Ticks(times: nat -> nat) { forall i: nat, j: nat :: i <= j ==> times(i) <= times(j) }

  // ---- Pages ----

  lemma {:induction false} EligibleFacts(box: seq<MailView>, cursor: nat)
    requires Descending(box)
    ensures Descending(Eligible(box, cursor))
    ensures forall v :: v in Eligible(box, cursor) ==> v in box && (cursor != 0 ==> v.id < cursor)
  {
    if cursor != 0 && box != [] && box[0].id >= cursor {
      EligibleFacts(box[1..], cursor);
    } else if cursor != 0 && box != [] {
      assert forall i :: 0 <= i < |box| ==> box[i].id <= box[0].id;
    }
  }

  /** A page is a descending run of visible mail below the cursor and down to the next cursor. */
  lemma PageFacts(mails: seq<Mail>, now: nat, cursor: nat)
    requires History(mails)
    ensures var page := Serve(View(mails, now), cursor, now);
            && Descending(page.mails)
            && (forall v :: v in page.mails ==> v in View(mails, now) && (cursor != 0 ==> v.id < cursor))
            && (page.next != 0 ==> |page.mails| == PAGE_SIZE && page.next == page.mails[PAGE_SIZE - 1].id
                                   && forall v :: v in page.mails ==> v.id >= page.next)
  {
    ViewDescends(mails, now);
    EligibleFacts(View(mails, now), cursor);
    var page := Serve(View(mails, now), cursor, now);
    if page.next != 0 {
      forall v | v in page.mails
        ensures v.id >= page.next
      {
        var i :| 0 <= i < |page.mails| && page.mails[i] == v;
      }
    }
  }

  /** A listing is descending across its pages. */
  lemma {:induction false} ListingDescends(mails: seq<Mail>, times: nat -> nat, cursors: seq<nat>, n: nat)
    requires History(mails) && Chained(Timed(mails, times), cursors) && n <= |cursors|
    ensures Descending(Collected(Timed(mails, times), cursors, n))
    ensures 0 < n < |cursors| ==> forall v :: v in Collected(Timed(mails, times), cursors, n) ==> v.id >= cursors[n]
  {
    if n > 0 {
      var server := Timed(mails, times);
      ListingDescends(mails, times, cursors, n - 1);
      PageFacts(mails, times(n - 1), cursors[n - 1]);
      var front, page := Collected(server, cursors, n - 1), Serve(View(mails, times(n - 1)), cursors[n - 1], times(n - 1));
      if n > 1 {
        assert Continues(server, cursors, n - 1);
        JoinDescends(front, page.mails, cursors[n - 1]);
      } else {
        assert front == [];
        assert front + page.mails == page.mails;
      }
      if n < |cursors| {
        assert Continues(server, cursors, n);
        assert n > 1 ==> cursors[n - 1] > cursors[n];
        assert forall v :: v in front + page.mails ==> v in front || v in page.mails;
      }
    }
  }

  lemma JoinDescends(front: seq<MailView>, back: seq<MailView>, cursor: nat)
    requires Descending(front) && Descending(back)
    requires (forall v :: v in front ==> v.id >= cursor) && (forall v :: v in back ==> v.id < cursor)
    ensures Descending(front + back)
  {
    var joined := front + back;
    forall i, j | 0 <= i < j < |joined|
      ensures joined[i].id > joined[j].id
    {
      if i < |front| <= j {
        assert front[i] in front && back[j - |front|] in back;
      }
    }
  }

  lemma {:induction false} CollectedFrom(server: Server, cursors: seq<nat>, n: nat, v: MailView) returns (k: nat)
    requires n <= |cursors| && v in Collected(server, cursors, n)
    ensures k < n && server(k, cursors[k]).Some? && v in server(k, cursors[k]).value.mails
  {
    if v in Collected(server, cursors, n - 1) {
      k := CollectedFrom(server, cursors, n - 1, v);
    } else {
      k := n - 1;
    }
  }

  lemma {:induction false} FirstPageCollected(server: Server, cursors: seq<nat>, n: nat, v: MailView)
    requires 0 < n <= |cursors| && cursors[0] == 0 && server(0, 0).Some? && v in server(0, 0).value.mails
    ensures v in Collected(server, cursors, n)
  {
    if n > 1 {
      FirstPageCollected(server, cursors, n - 1, v);
    }
  }

  lemma ViewIndex(mails: seq<Mail>, now: nat, v: MailView) returns (i: nat)
    requires v in View(mails, now)
    ensures i < |mails| && Visible(mails[i], now) && v == Show(mails[i], now)
  {
    ViewMember(mails, now, v);
    i :| 0 <= i < |mails| && Visible(mails[i], now) && v == Show(mails[i], now);
  }

  /** Later pages lie below the first page's cursor, which is the id of a mail it shows. */
  lemma LaterPagesBelow(mails: seq<Mail>, times: nat -> nat, cursors: seq<nat>, k: nat) returns (j: nat)
    requires History(mails) && Chained(Timed(mails, times), cursors) && 0 < k < |cursors|
    ensures j < |mails| && mails[j].sentMs <= times(0) && 0 < cursors[k] <= mails[j].id
  {
    var server := Timed(mails, times);
    assert Continues(server, cursors, 1) && Continues(server, cursors, k);
    PageFacts(mails, times(0), 0);
    var last := Serve(View(mails, times(0)), 0, times(0)).mails[PAGE_SIZE - 1];
    j := ViewIndex(mails, times(0), last);
    if k > 1 {
      assert cursors[1] > cursors[k];
    }
  }

  /** Whatever a listing shows was sent no later than its first page, even on later pages. */
  lemma ListedMailIsOld(mails: seq<Mail>, times: nat -> nat, cursors: seq<nat>, v: MailView) returns (i: nat, now: nat)
    requires History(mails) && Ticks(times) && Chained(Timed(mails, times), cursors)
    requires v in Collected(Timed(mails, times), cursors, |cursors|)
    ensures i < |mails| && v == Show(mails[i], now) && Visible(mails[i], now)
    ensures times(0) <= now && mails[i].sentMs <= times(0)
  {
    var k := CollectedFrom(Timed(mails, times), cursors, |cursors|, v);
    now := times(k);
    PageFacts(mails, now, cursors[k]);
    i := ViewIndex(mails, now, v);
    if k > 0 {
      var j := LaterPagesBelow(mails, times, cursors, k);
      assert mails[i].id < mails[j].id;
    }
  }

  // ---- Verdict ----

  /** Two listings of one mailbox with the reading of mail r in between. */
  ghost predicate TwoListings(
    mails: seq<Mail>, r: nat, marked: bool, times1: nat -> nat, times2: nat -> nat,
    cursors1: seq<nat>, cursors2: seq<nat>, before: Listing, after: Listing)
  {
    && Ticks(times1) && Ticks(times2)
    && Window(mails, r, times1(0), times2(0), marked)
    && Listed(Timed(mails, times1), cursors1, Some(before))
    && Listed(Timed(mails, times2), cursors2, Some(after))
  }

  lemma CountedExpires(
    mails: seq<Mail>, r: nat, marked: bool, times1: nat -> nat, times2: nat -> nat,
    cursors1: seq<nat>, cursors2: seq<nat>, before: Listing, after: Listing, v: MailView)
    requires TwoListings(mails, r, marked, times1, times2, cursors1, cursors2, before, after)
    requires v in before.mails && ExpiresBetween(v, r, before.serverNowMs, after.serverNowMs)
    ensures ViewKey(v) in ExpiringIds(mails, r, times1(0), times2(0))
  {
    var i, now := ListedMailIsOld(mails, times1, cursors1, v);
    Membership(mails, r, times1(0), times2(0), i);
  }

  lemma ExpiringIsCounted(
    mails: seq<Mail>, r: nat, marked: bool, times1: nat -> nat, times2: nat -> nat,
    cursors1: seq<nat>, cursors2: seq<nat>, before: Listing, after: Listing, id: int)
    requires TwoListings(mails, r, marked, times1, times2, cursors1, cursors2, before, after) && before.singlePage
    requires id in ExpiringIds(mails, r, times1(0), times2(0))
    ensures exists k :: 0 <= k < |before.mails| && ViewKey(before.mails[k]) == id
                        && ExpiresBetween(before.mails[k], r, before.serverNowMs, after.serverNowMs)
  {
    var t1, t2 := times1(0), times2(0);
    SinglePageShowsAll(mails, times1, cursors1, before);
    var i := IdIndex(mails, (m: Mail) => ExpiresWithin(m, r, t1, t2), id);
    ViewMember(mails, t1, Show(mails[i], t1));
    var k :| 0 <= k < |before.mails| && before.mails[k] == Show(mails[i], t1);
    assert ViewKey(before.mails[k]) == id;
  }

  /** What the check counts as expired did expire. */
  lemma ExpiredAreExpiring(
    mails: seq<Mail>, r: nat, marked: bool, times1: nat -> nat, times2: nat -> nat,
    cursors1: seq<nat>, cursors2: seq<nat>, before: Listing, after: Listing)
    requires TwoListings(mails, r, marked, times1, times2, cursors1, cursors2, before, after)
    ensures Expired(before, after, r) <= |ExpiringIds(mails, r, times1(0), times2(0))|
    ensures before.singlePage ==> Expired(before, after, r) == |ExpiringIds(mails, r, times1(0), times2(0))|
  {
    var p := (m: MailView) => ExpiresBetween(m, r, before.serverNowMs, after.serverNowMs);
    var counted, expiring := KeysWhere(ViewKey, before.mails, p), ExpiringIds(mails, r, times1(0), times2(0));
    ListingDescends(mails, times1, cursors1, |cursors1|);
    CountIsKeys(ViewKey, before.mails, p);
    forall id | id in counted
      ensures id in expiring
    {
      var k :| 0 <= k < |before.mails| && p(before.mails[k]) && ViewKey(before.mails[k]) == id;
      CountedExpires(mails, r, marked, times1, times2, cursors1, cursors2, before, after, before.mails[k]);
    }
    SubsetSize(counted, expiring);
    if before.singlePage {
      forall id | id in expiring
        ensures id in counted
      {
        ExpiringIsCounted(mails, r, marked, times1, times2, cursors1, cursors2, before, after, id);
      }
      assert counted == expiring;
    }
  }

  lemma SinglePageShowsAll(mails: seq<Mail>, times: nat -> nat, cursors: seq<nat>, listing: Listing)
    requires History(mails) && Listed(Timed(mails, times), cursors, Some(listing)) && listing.singlePage
    ensures listing.mails == View(mails, times(0))
  {
    var server := Timed(mails, times);
    var view := View(mails, times(0));
    ViewDescends(mails, times(0));
    assert |cursors| > 1 ==> Continues(server, cursors, 1);
    assert |cursors| == 1;
    assert |view| <= PAGE_SIZE;
    assert Collected(server, cursors, 0) == [];
    assert Collected(server, cursors, 1) == [] + view;
  }

  /** Arrivals are newest, so if they fit on one page the second listing shows all of them. */
  lemma ArrivalsAreListed(mails: seq<Mail>, times: nat -> nat, cursors: seq<nat>, listing: Listing, t1: nat, id: int)
    requires History(mails) && Listed(Timed(mails, times), cursors, Some(listing))
    requires listing.singlePage || |Newcomers(mails, t1, times(0))| <= PAGE_SIZE
    requires id in ArrivingIds(mails, t1, times(0))
    ensures exists k :: 0 <= k < |listing.mails| && ViewKey(listing.mails[k]) == id && !listing.mails[k].isRead
  {
    var t2 := times(0);
    var view := View(mails, t2);
    ViewDescends(mails, t2);
    var i := IdIndex(mails, (m: Mail) => ArrivesWithin(m, t1, t2), id);
    var v := Show(mails[i], t2);
    ViewMember(mails, t2, v);
    var k :| 0 <= k < |view| && view[k] == v;
    if listing.singlePage {
      SinglePageShowsAll(mails, times, cursors, listing);
    } else {
      NewcomersFirst(mails, t1, t2, k, i);
      assert v == Serve(view, 0, t2).mails[k];
      FirstPageCollected(Timed(mails, times), cursors, |cursors|, v);
      var l :| 0 <= l < |listing.mails| && listing.mails[l] == v;
    }
  }

  /** Everything sent after t1 and visible at t2. */
  function Newcomers(mails: seq<Mail>, t1: nat, t2: nat): set<int> {
    KeysWhere(MailKey, mails, (m: Mail) => m.sentMs > t1 && Visible(m, t2))
  }

  /** Everything above a newcomer in the view is a newcomer too, so their number bounds its place. */
  lemma NewcomersFirst(mails: seq<Mail>, t1: nat, t2: nat, k: nat, i: nat)
    requires History(mails) && k < |View(mails, t2)| && i < |mails|
    requires View(mails, t2)[k] == Show(mails[i], t2) && mails[i].sentMs > t1
    ensures k < |Newcomers(mails, t1, t2)|
  {
    var view := View(mails, t2);
    ViewDescends(mails, t2);
    var top := view[..k + 1];
    DistinctKeyCount(ViewKey, top);
    forall id | id in Keys(ViewKey, top)
      ensures id in Newcomers(mails, t1, t2)
    {
      var l := KeyIndex(ViewKey, top, id);
      ViewMember(mails, t2, view[l]);
      assert view[l] in view;
      var j :| 0 <= j < |mails| && Visible(mails[j], t2) && view[l] == Show(mails[j], t2);
      assert mails[j].id >= mails[i].id;
      assert mails[j].sentMs > t1;
      assert MailKey(mails[j]) == id;
    }
    SubsetSize(Keys(ViewKey, top), Newcomers(mails, t1, t2));
  }

  /** Every arrival is counted as arrived; with single pages nothing else is. */
  lemma ArrivedAreArriving(
    mails: seq<Mail>, r: nat, marked: bool, times1: nat -> nat, times2: nat -> nat,
    cursors1: seq<nat>, cursors2: seq<nat>, before: Listing, after: Listing)
    requires TwoListings(mails, r, marked, times1, times2, cursors1, cursors2, before, after)
    requires after.singlePage || |Newcomers(mails, times1(0), times2(0))| <= PAGE_SIZE
    ensures Arrived(before, after) >= |ArrivingIds(mails, times1(0), times2(0))|
    ensures before.singlePage && after.singlePage ==> Arrived(before, after) == |ArrivingIds(mails, times1(0), times2(0))|
  {
    var t1, t2 := times1(0), times2(0);
    var seen := Keys(ViewKey, before.mails);
    var p := (m: MailView) => Fresh(m, seen);
    var counted, arriving := KeysWhere(ViewKey, after.mails, p), ArrivingIds(mails, t1, t2);
    ListingDescends(mails, times2, cursors2, |cursors2|);
    CountIsKeys(ViewKey, after.mails, p);
    SameCount(after.mails, p, (m: MailView) => Fresh(m, Keys(ViewKey, before.mails)));
    forall id | id in arriving
      ensures id in counted
    {
      ArrivalsAreListed(mails, times2, cursors2, after, t1, id);
      var k :| 0 <= k < |after.mails| && ViewKey(after.mails[k]) == id && !after.mails[k].isRead;
      ArrivalNotSeen(mails, times1, cursors1, before, t2, id);
      assert p(after.mails[k]);
    }
    SubsetSize(arriving, counted);
    if before.singlePage && after.singlePage {
      forall id | id in counted
        ensures id in arriving
      {
        UnseenArrived(mails, r, marked, times1, times2, cursors1, cursors2, before, after, id);
      }
      assert counted == arriving;
    }
  }

  lemma ArrivalNotSeen(mails: seq<Mail>, times: nat -> nat, cursors: seq<nat>, before: Listing, t2: nat, id: int)
    requires History(mails) && Ticks(times) && Listed(Timed(mails, times), cursors, Some(before))
    requires id in ArrivingIds(mails, times(0), t2)
    ensures id !in Keys(ViewKey, before.mails)
  {
    var i := IdIndex(mails, (m: Mail) => ArrivesWithin(m, times(0), t2), id);
    if id in Keys(ViewKey, before.mails) {
      var k := KeyIndex(ViewKey, before.mails, id);
      var j, now := ListedMailIsOld(mails, times, cursors, before.mails[k]);
      assert false;
    }
  }

  lemma UnseenArrived(
    mails: seq<Mail>, r: nat, marked: bool, times1: nat -> nat, times2: nat -> nat,
    cursors1: seq<nat>, cursors2: seq<nat>, before: Listing, after: Listing, id: int)
    requires TwoListings(mails, r, marked, times1, times2, cursors1, cursors2, before, after)
    requires before.singlePage && after.singlePage
    requires id in KeysWhere(ViewKey, after.mails, (m: MailView) => Fresh(m, Keys(ViewKey, before.mails)))
    ensures id in ArrivingIds(mails, times1(0), times2(0))
  {
    var t1, t2 := times1(0), times2(0);
    SinglePageShowsAll(mails, times1, cursors1, before);
    SinglePageShowsAll(mails, times2, cursors2, after);
    var k :| 0 <= k < |after.mails| && Fresh(after.mails[k], Keys(ViewKey, before.mails)) && ViewKey(after.mails[k]) == id;
    ViewMember(mails, t2, after.mails[k]);
    var i :| 0 <= i < |mails| && Visible(mails[i], t2) && after.mails[k] == Show(mails[i], t2);
    Membership(mails, r, t1, t2, i);
    if mails[i].sentMs <= t1 {
      var v := Show(mails[i], t1);
      ViewMember(mails, t1, v);
      assert Visible(mails[i], t1);
      assert false;
    }
  }

  /** How far the expectation is from the true count, for listings of any length: what expired
      unseen between pages, and arrivals counted beyond the real ones. */
  lemma ExpectationGap(
    mails: seq<Mail>, r: nat, marked: bool, times1: nat -> nat, times2: nat -> nat,
    cursors1: seq<nat>, cursors2: seq<nat>, before: Listing, after: Listing)
    requires TwoListings(mails, r, marked, times1, times2, cursors1, cursors2, before, after)
    ensures Expected(before, after, r) + (if marked then 0 else 1) - after.unread
            == (|ExpiringIds(mails, r, times1(0), times2(0))| - Expired(before, after, r))
               + (Arrived(before, after) - |ArrivingIds(mails, times1(0), times2(0))|)
  {
    UnreadBalance(mails, r, times1(0), times2(0), marked);
    ServerCountsUnread(mails, times1(0));
    ServerCountsUnread(mails, times2(0));
  }

  /** With single-page listings the check is exact: it passes if and only if the server really
      marked the mail as read, whatever else arrived or expired meanwhile. */
  lemma SinglePageVerdictIsExact(
    mails: seq<Mail>, r: nat, marked: bool, times1: nat -> nat, times2: nat -> nat,
    cursors1: seq<nat>, cursors2: seq<nat>, before: Listing, after: Listing)
    requires TwoListings(mails, r, marked, times1, times2, cursors1, cursors2, before, after)
    requires before.singlePage && after.singlePage
    ensures after.unread == Expected(before, after, r) <==> marked
    ensures marked ==> after.unread == Expected(before, after, r)
    ensures !marked ==> after.unread == Expected(before, after, r) + 1
  {
    ExpectationGap(mails, r, marked, times1, times2, cursors1, cursors2, before, after);
    ExpiredAreExpiring(mails, r, marked, times1, times2, cursors1, cursors2, before, after);
    ArrivedAreArriving(mails, r, marked, times1, times2, cursors1, cursors2, before, after);
  }

  /** With longer listings a correct server is never accused as long as no more than one page of
      mail arrived in between. */
  lemma LongListingNeverAccuses(
    mails: seq<Mail>, r: nat, times1: nat -> nat, times2: nat -> nat,
    cursors1: seq<nat>, cursors2: seq<nat>, before: Listing, after: Listing)
    requires TwoListings(mails, r, true, times1, times2, cursors1, cursors2, before, after)
    requires |Newcomers(mails, times1(0), times2(0))| <= PAGE_SIZE
    ensures after.unread <= Expected(before, after, r)
  {
    ExpectationGap(mails, r, true, times1, times2, cursors1, cursors2, before, after);
    ExpiredAreExpiring(mails, r, true, times1, times2, cursors1, cursors2, before, after);
    ArrivedAreArriving(mails, r, true, times1, times2, cursors1, cursors2, before, after);
  }

  /** The exact verdict of the bound used for longer listings: it passes a server that recorded the read
      if and only if unseen expiries make up for arrivals that were not counted, and one that did not
      record it only if they exceed them. */
  lemma LongListingVerdict(
    mails: seq<Mail>, r: nat, marked: bool, times1: nat -> nat, times2: nat -> nat,
    cursors1: seq<nat>, cursors2: seq<nat>, before: Listing, after: Listing)
    requires TwoListings(mails, r, marked, times1, times2, cursors1, cursors2, before, after)
    ensures after.unread <= Expected(before, after, r) <==>
              (|ExpiringIds(mails, r, times1(0), times2(0))| - Expired(before, after, r))
              + (Arrived(before, after) - |ArrivingIds(mails, times1(0), times2(0))|) >= if marked then 0 else 1
  {
    ExpectationGap(mails, r, marked, times1, times2, cursors1, cursors2, before, after);
  }

  /** With at most one page of arrivals, a read the server did not record is noticed if and only if no
      expiry went unseen and nothing was counted as arrived beyond the real arrivals. */
  lemma LongListingNotices(
    mails: seq<Mail>, r: nat, times1: nat -> nat, times2: nat -> nat,
    cursors1: seq<nat>, cursors2: seq<nat>, before: Listing, after: Listing)
    requires TwoListings(mails, r, false, times1, times2, cursors1, cursors2, before, after)
    requires |Newcomers(mails, times1(0), times2(0))| <= PAGE_SIZE
    ensures after.unread > Expected(before, after, r) <==>
              && Expired(before, after, r) == |ExpiringIds(mails, r, times1(0), times2(0))|
              && Arrived(before, after) == |ArrivingIds(mails, times1(0), times2(0))|
  {
    LongListingVerdict(mails, r, false, times1, times2, cursors1, cursors2, before, after);
    ExpiredAreExpiring(mails, r, false, times1, times2, cursors1, cursors2, before, after);
    ArrivedAreArriving(mails, r, false, times1, times2, cursors1, cursors2, before, after);
  }

  // ---- A read that goes unnoticed ----

  /** Fifty-one mails, all unread; the oldest expires soon. */
  function Letter(i: nat): Mail {
    Mail(if i <= 50 then 51 - i else 0, 0, if i == 50 then 1500 else 9000, None, false, false)
  }

  function Letters(n: nat): (letters: seq<Mail>)
    ensures |letters| == n && forall i :: 0 <= i < n ==> letters[i] == Letter(i)
  {
    seq(n, (i: nat) => Letter(i))
  }

  function Shown(n: nat): (views: seq<MailView>)
    ensures |views| == n && forall i :: 0 <= i < n ==> views[i] == Show(Letter(i), 0)
  {
    seq(n, (i: nat) => Show(Letter(i), 0))
  }

  /** Up to fifty of them are visible as they are until they expire. */
  lemma {:induction false} LettersShown(n: nat, now: nat)
    requires n <= 50 && now < 9000
    ensures View(Letters(n), now) == Shown(n)
  {
    if n > 0 {
      LettersShown(n - 1, now);
      assert Letters(n)[..n - 1] == Letters(n - 1);
      assert Shown(n) == Shown(n - 1) + [Show(Letter(n - 1), 0)];
    }
  }

  lemma AllLettersShown(now: nat)
    requires now < 9000
    ensures View(Letters(51), now) == Shown(if now < 1500 then 51 else 50)
  {
    LettersShown(50, now);
    assert Letters(51)[..50] == Letters(50);
    assert Shown(51) == Shown(50) + [Show(Letter(50), 0)];
  }

  lemma {:induction false} AllUnread(n: nat)
    ensures CountUnread(Shown(n)) == n
  {
    if n > 0 {
      AllUnread(n - 1);
      assert Shown(n)[..n - 1] == Shown(n - 1);
    }
  }

  lemma {:induction false} CountNone<T>(s: seq<T>, p: T -> bool)
    requires forall i :: 0 <= i < |s| ==> !p(s[i])
    ensures CountIf(s, p) == 0
  {
    if s != [] {
      CountNone(s[..|s| - 1], p);
    }
  }

  /** Both listings of the letters: the oldest expires after the first page of the first one was served
      and before the second page, so neither listing shows it. */
  function FirstTimes(): nat -> nat { (n: nat) => if n == 0 then 1000 else 2000 }

  function SecondTimes(): nat -> nat { (n: nat) => 3000 }

  function FirstListing(): Listing { Listing(Shown(50), 51, CountClaimable(Shown(51), 1000), 1000, false) }

  function SecondListing(): Listing { Listing(Shown(50), 50, CountClaimable(Shown(50), 3000), 3000, true) }

  lemma OnePageListed(server: Server, page: Page)
    requires server(0, 0) == Some(page) && page.next == 0
    ensures Listed(server, [0], Some(Listing(page.mails, page.unread, page.claimable, page.nowMs, true)))
  {
    assert Collected(server, [0], 0) == [];
    assert Collected(server, [0], 1) == [] + page.mails;
  }

  /** A full page, and then an empty one. */
  lemma TwoPagesListed(server: Server, page: Page, last: Page)
    requires server(0, 0) == Some(page) && page.mails != [] && page.next != 0
    requires server(1, page.next) == Some(last) && last.mails == [] && last.next == 0
    ensures Listed(server, [0, page.next], Some(Listing(page.mails, page.unread, page.claimable, page.nowMs, false)))
  {
    var cursors := [0, page.next];
    assert Continues(server, cursors, 1);
    assert Collected(server, cursors, 0) == [];
    assert Collected(server, cursors, 1) == [] + page.mails;
    assert Collected(server, cursors, 2) == page.mails + [];
  }

  lemma FirstPage()
    ensures Timed(Letters(51), FirstTimes())(0, 0) == Some(Page(Shown(50), 2, 51, CountClaimable(Shown(51), 1000), 1000))
  {
    AllLettersShown(1000);
    AllUnread(51);
    assert Shown(51)[..50] == Shown(50) && Shown(51)[49].id == 2;
  }

  lemma SecondPage()
    ensures Timed(Letters(51), FirstTimes())(1, 2) == Some(Page([], 0, 50, CountClaimable(Shown(50), 2000), 2000))
  {
    AllLettersShown(2000);
    AllUnread(50);
    assert Shown(50)[49].id == 2 && Shown(50)[50..] == [];
    EligibleAfter(Shown(50), 50);
  }

  lemma FirstListed()
    ensures Listed(Timed(Letters(51), FirstTimes()), [0, 2], Some(FirstListing()))
  {
    FirstPage();
    SecondPage();
    TwoPagesListed(Timed(Letters(51), FirstTimes()), Page(Shown(50), 2, 51, CountClaimable(Shown(51), 1000), 1000),
                   Page([], 0, 50, CountClaimable(Shown(50), 2000), 2000));
  }

  lemma SecondListed()
    ensures Listed(Timed(Letters(51), SecondTimes()), [0], Some(SecondListing()))
  {
    AllLettersShown(3000);
    AllUnread(50);
    OnePageListed(Timed(Letters(51), SecondTimes()), Page(Shown(50), 0, 50, CountClaimable(Shown(50), 3000), 3000));
  }

  lemma LettersWindow()
    ensures Window(Letters(51), 51, 1000, 3000, false)
  {
    assert UnreadAt(Letters(51)[0], 1000) && Letters(51)[0].id == 51;
  }

  lemma LettersExpected()
    ensures Expected(FirstListing(), SecondListing(), 51) == 50
  {
    var before, after := FirstListing(), SecondListing();
    CountNone(before.mails, (m: MailView) => ExpiresBetween(m, 51, before.serverNowMs, after.serverNowMs));
    forall i | 0 <= i < |after.mails|
      ensures !Fresh(after.mails[i], Keys(ViewKey, before.mails))
    {
      assert ViewKey(before.mails[i]) in Keys(ViewKey, before.mails);
    }
    CountNone(after.mails, (m: MailView) => Fresh(m, Keys(ViewKey, before.mails)));
  }

  /** The server does not record that mail 51 was read, and the check passes all the same. */
  lemma UnrecordedReadUnnoticed()
    ensures TwoListings(Letters(51), 51, false, FirstTimes(), SecondTimes(), [0, 2], [0], FirstListing(), SecondListing())
    ensures SecondListing().unread <= Expected(FirstListing(), SecondListing(), 51)
  {
    FirstListed();
    SecondListed();
    LettersWindow();
    LettersExpected();
  }
}
