/** A mailbox over time, and the proof that the unread balance of MailUnread is right about it:
    exactly right for single-page listings, never too small for longer ones. */
module MailHistory {
  import opened Keyed
  import opened MailPaging
  import opened MailUnread

  /** A mail with its whole life: when it is sent, expires and is read.  `kept` marks mail whose
      attachments were claimed, which stays listed after it expires; claiming marks it read.
      `attached` marks mail with attachments. */
  datatype Mail = Mail(id: nat, sentMs: nat, expireMs: nat, readMs: Option<nat>, kept: bool, attached: bool)

  function MailKey(mail: Mail): int { mail.id }

  predicate Read(mail: Mail, now: nat) { mail.readMs.Some? && mail.readMs.value <= now }

  predicate Visible(mail: Mail, now: nat) { mail.sentMs <= now && (mail.expireMs > now || mail.kept) }

  /** All mail ever, newest first: ids are unique and later mail has larger ids. */
  predicate History(mails: seq<Mail>) {
    forall i, j :: 0 <= i < j < |mails| ==> mails[i].id > mails[j].id && mails[i].sentMs >= mails[j].sentMs
  }

  function Show(mail: Mail, now: nat): MailView {
    MailView(mail.id, mail.expireMs, Read(mail, now), mail.attached && !mail.kept)
  }

  /** What the mailbox shows at a given time. */
  function View(mails: seq<Mail>, now: nat): seq<MailView> {
    if mails == [] then []
    else View(mails[..|mails| - 1], now)
         + if Visible(mails[|mails| - 1], now) then [Show(mails[|mails| - 1], now)] else []
  }

  /** The view lists the visible mails, each shown as it is at that time. */
  lemma {:induction false} ViewMember(mails: seq<Mail>, now: nat, v: MailView)
    ensures v in View(mails, now) <==> exists i :: 0 <= i < |mails| && Visible(mails[i], now) && v == Show(mails[i], now)
  {
    if mails != [] {
      var n := |mails| - 1;
      ViewMember(mails[..n], now, v);
      if i :| 0 <= i < n && Visible(mails[i], now) && v == Show(mails[i], now) {
        assert mails[..n][i] == mails[i];
      }
    }
  }

  lemma {:induction false} ViewDescends(mails: seq<Mail>, now: nat)
    requires History(mails)
    ensures Descending(View(mails, now))
  {
    if mails != [] {
      var n := |mails| - 1;
      var front := View(mails[..n], now);
      ViewDescends(mails[..n], now);
      forall i | 0 <= i < |front|
        ensures front[i].id > mails[n].id
      {
        ViewMember(mails[..n], now, front[i]);
      }
    }
  }

  // ---- What happens between two instants ----

  predicate UnreadAt(mail: Mail, now: nat) { Visible(mail, now) && !Read(mail, now) }

  predicate ExpiresWithin(mail: Mail, r: nat, t1: nat, t2: nat) {
    UnreadAt(mail, t1) && mail.id != r && mail.expireMs <= t2
  }

  predicate ArrivesWithin(mail: Mail, t1: nat, t2: nat) { mail.sentMs > t1 && UnreadAt(mail, t2) }

  function UnreadIds(mails: seq<Mail>, now: nat): set<int> {
    KeysWhere(MailKey, mails, (m: Mail) => UnreadAt(m, now))
  }

  function ExpiringIds(mails: seq<Mail>, r: nat, t1: nat, t2: nat): set<int> {
    KeysWhere(MailKey, mails, (m: Mail) => ExpiresWithin(m, r, t1, t2))
  }

  function ArrivingIds(mails: seq<Mail>, t1: nat, t2: nat): set<int> {
    KeysWhere(MailKey, mails, (m: Mail) => ArrivesWithin(m, t1, t2))
  }

  /** Between t1 and t2 the client read mail r, which was shown unread at t1, and nobody read
      anything else.  `marked` says whether the server recorded that; if it did not, r must still
      be visible for the omission to show. */
  ghost predicate Window(mails: seq<Mail>, r: nat, t1: nat, t2: nat, marked: bool) {
    && History(mails) && t1 <= t2
    && (forall i :: 0 <= i < |mails| ==>
          && (mails[i].kept ==> Read(mails[i], t1))
          && (mails[i].id != r ==> (Read(mails[i], t1) <==> Read(mails[i], t2))))
    && (exists i :: 0 <= i < |mails| && mails[i].id == r && UnreadAt(mails[i], t1)
                    && Read(mails[i], t2) == marked && (!marked ==> mails[i].expireMs > t2))
  }

  /** Ids are unique, so whether an id is in such a set is decided by its own mail. */
  lemma IdDecides(mails: seq<Mail>, p: Mail -> bool, i: nat)
    requires History(mails) && i < |mails|
    ensures mails[i].id in KeysWhere(MailKey, mails, p) <==> p(mails[i])
  {
    if mails[i].id in KeysWhere(MailKey, mails, p) {
      var j :| 0 <= j < |mails| && p(mails[j]) && MailKey(mails[j]) == mails[i].id;
      assert j == i;
    }
    if p(mails[i]) {
      assert MailKey(mails[i]) == mails[i].id;
    }
  }

  /** The membership of one mail's id in the four sets. */
  lemma Membership(mails: seq<Mail>, r: nat, t1: nat, t2: nat, i: nat)
    requires History(mails) && i < |mails|
    ensures mails[i].id in UnreadIds(mails, t1) <==> UnreadAt(mails[i], t1)
    ensures mails[i].id in UnreadIds(mails, t2) <==> UnreadAt(mails[i], t2)
    ensures mails[i].id in ExpiringIds(mails, r, t1, t2) <==> ExpiresWithin(mails[i], r, t1, t2)
    ensures mails[i].id in ArrivingIds(mails, t1, t2) <==> ArrivesWithin(mails[i], t1, t2)
  {
    IdDecides(mails, (m: Mail) => UnreadAt(m, t1), i);
    IdDecides(mails, (m: Mail) => UnreadAt(m, t2), i);
    IdDecides(mails, (m: Mail) => ExpiresWithin(m, r, t1, t2), i);
    IdDecides(mails, (m: Mail) => ArrivesWithin(m, t1, t2), i);
  }

  lemma IdIndex(mails: seq<Mail>, p: Mail -> bool, id: int) returns (i: nat)
    requires id in KeysWhere(MailKey, mails, p)
    ensures i < |mails| && mails[i].id == id && p(mails[i])
  {
    i :| 0 <= i < |mails| && p(mails[i]) && MailKey(mails[i]) == id;
  }

  /** Who is unread at t2: those unread at t1 except the one read and the expired, and arrivals. */
  lemma UnreadSets(mails: seq<Mail>, r: nat, t1: nat, t2: nat, marked: bool, id: int)
    requires Window(mails, r, t1, t2, marked)
    ensures r in UnreadIds(mails, t1)
    ensures id in UnreadIds(mails, t2) <==>
              || (id in UnreadIds(mails, t1) && !(marked && id == r) && id !in ExpiringIds(mails, r, t1, t2))
              || id in ArrivingIds(mails, t1, t2)
    ensures id in ExpiringIds(mails, r, t1, t2) ==> id in UnreadIds(mails, t1) && id != r
    ensures id in ArrivingIds(mails, t1, t2) ==> id !in UnreadIds(mails, t1)
  {
    var k :| 0 <= k < |mails| && mails[k].id == r && UnreadAt(mails[k], t1);
    Membership(mails, r, t1, t2, k);
    if id in UnreadIds(mails, t1) {
      var i := IdIndex(mails, (m: Mail) => UnreadAt(m, t1), id);
      Membership(mails, r, t1, t2, i);
    } else if id in UnreadIds(mails, t2) {
      var i := IdIndex(mails, (m: Mail) => UnreadAt(m, t2), id);
      Membership(mails, r, t1, t2, i);
    } else if id in ExpiringIds(mails, r, t1, t2) {
      var i := IdIndex(mails, (m: Mail) => ExpiresWithin(m, r, t1, t2), id);
      Membership(mails, r, t1, t2, i);
    } else if id in ArrivingIds(mails, t1, t2) {
      var i := IdIndex(mails, (m: Mail) => ArrivesWithin(m, t1, t2), id);
      Membership(mails, r, t1, t2, i);
    }
  }

  lemma SetBalance(was: set<int>, now: set<int>, read: set<int>, expiring: set<int>, arriving: set<int>)
    requires read <= was && expiring <= was - read && arriving !! was
    requires now == (was - read - expiring) + arriving
    ensures |now| == |was| - |read| - |expiring| + |arriving|
  {
    assert |was - read| == |was| - |read|;
    assert |was - read - expiring| == |was - read| - |expiring|;
  }

  /** The true balance: unread then, less the one read and those that expired, plus new arrivals. */
  lemma UnreadBalance(mails: seq<Mail>, r: nat, t1: nat, t2: nat, marked: bool)
    requires Window(mails, r, t1, t2, marked)
    ensures |UnreadIds(mails, t2)| == |UnreadIds(mails, t1)| - (if marked then 1 else 0)
                                      - |ExpiringIds(mails, r, t1, t2)| + |ArrivingIds(mails, t1, t2)|
  {
    var was, now := UnreadIds(mails, t1), UnreadIds(mails, t2);
    var expiring, arriving := ExpiringIds(mails, r, t1, t2), ArrivingIds(mails, t1, t2);
    var read: set<int> := if marked then {r} else {};
    forall id: int
      ensures id in now <==> id in (was - read - expiring) + arriving
      ensures id in read ==> id in was
      ensures id in expiring ==> id in was - read
      ensures id in arriving ==> id !in was
    {
      UnreadSets(mails, r, t1, t2, marked, id);
    }
    SetBalance(was, now, read, expiring, arriving);
  }

  lemma ShownIsUnread(mails: seq<Mail>, now: nat, id: int)
    requires History(mails) && id in KeysWhere(ViewKey, View(mails, now), Unread)
    ensures id in UnreadIds(mails, now)
  {
    var view := View(mails, now);
    var k :| 0 <= k < |view| && Unread(view[k]) && ViewKey(view[k]) == id;
    ViewMember(mails, now, view[k]);
    var i :| 0 <= i < |mails| && Visible(mails[i], now) && view[k] == Show(mails[i], now);
    IdDecides(mails, (m: Mail) => UnreadAt(m, now), i);
  }

  lemma UnreadIsShown(mails: seq<Mail>, now: nat, id: int)
    requires id in UnreadIds(mails, now)
    ensures id in KeysWhere(ViewKey, View(mails, now), Unread)
  {
    var view := View(mails, now);
    var i :| 0 <= i < |mails| && UnreadAt(mails[i], now) && MailKey(mails[i]) == id;
    ViewMember(mails, now, Show(mails[i], now));
    var k :| 0 <= k < |view| && view[k] == Show(mails[i], now);
    assert Unread(view[k]) && ViewKey(view[k]) == id;
  }

  /** The server's count is the number of unread visible mails. */
  lemma ServerCountsUnread(mails: seq<Mail>, now: nat)
    requires History(mails)
    ensures CountUnread(View(mails, now)) == |UnreadIds(mails, now)|
  {
    var view := View(mails, now);
    ViewDescends(mails, now);
    CountIsKeys(ViewKey, view, Unread);
    forall id
      ensures id in KeysWhere(ViewKey, view, Unread) <==> id in UnreadIds(mails, now)
    {
      if id in KeysWhere(ViewKey, view, Unread) {
        ShownIsUnread(mails, now, id);
      }
      if id in UnreadIds(mails, now) {
        UnreadIsShown(mails, now, id);
      }
    }
    assert KeysWhere(ViewKey, view, Unread) == UnreadIds(mails, now);
  }
}
