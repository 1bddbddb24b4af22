/** The unread-count balance after reading one mail (robot/mail_smoke_scenario.go,
    mailSmokeCheckUnreadAfterRead), judged against a mailbox in which mail arrives, expires and is
    read while the client pages through it. */
module MailUnread {
  import opened Keyed
  import opened MailPaging

  // ---- The check ----

  predicate ExpiresBetween(mail: MailView, readId: nat, from: nat, to: nat) {
    mail.id != readId && !mail.isRead && from < mail.expireMs <= to
  }

  predicate Fresh(mail: MailView, seen: set<int>) { mail.id !in seen && !mail.isRead }

  /** Unread mails of the first listing that expire between the two listings. */
  function Expired(before: Listing, after: Listing, readId: nat): nat {
    CountIf(before.mails, (m: MailView) => ExpiresBetween(m, readId, before.serverNowMs, after.serverNowMs))
  }

  /** Unread mails of the second listing that the first did not show. */
  function Arrived(before: Listing, after: Listing): nat {
    CountIf(after.mails, (m: MailView) => Fresh(m, Keys(ViewKey, before.mails)))
  }

  function Expected(before: Listing, after: Listing, readId: nat): int {
    before.unread - 1 - Expired(before, after, readId) + Arrived(before, after)
  }

  /** mailSmokeCheckUnreadAfterRead: exact if both listings were single pages, otherwise an upper
      bound. */
  method CheckUnreadAfterRead(before: Listing, after: Listing, readId: nat) returns (exact: bool, ok: bool)
    ensures exact <==> before.singlePage && after.singlePage
    ensures ok <==> if exact then after.unread == Expected(before, after, readId)
                    else after.unread <= Expected(before, after, readId)
  {
    var seen: set<int> := {};
    var expired := 0;
    ghost var expires := (m: MailView) => ExpiresBetween(m, readId, before.serverNowMs, after.serverNowMs);
    for n := 0 to |before.mails|
      invariant seen == Keys(ViewKey, before.mails[..n])
      invariant expired == CountIf(before.mails[..n], expires)
    {
      var m := before.mails[n];
      KeysExtend(ViewKey, before.mails, n);
      assert before.mails[..n + 1][..n] == before.mails[..n];
      seen := seen + {m.id};
      if m.id != readId && !m.isRead && m.expireMs > before.serverNowMs && m.expireMs <= after.serverNowMs {
        expired := expired + 1;
      }
    }
    assert before.mails[..|before.mails|] == before.mails;
    var arrived := 0;
    ghost var fresh' := (m: MailView) => Fresh(m, seen);
    for n := 0 to |after.mails|
      invariant arrived == CountIf(after.mails[..n], fresh')
    {
      var m := after.mails[n];
      assert after.mails[..n + 1][..n] == after.mails[..n];
      if m.id !in seen && !m.isRead {
        arrived := arrived + 1;
      }
    }
    assert after.mails[..|after.mails|] == after.mails;
    exact := before.singlePage && after.singlePage;
    var expected := before.unread - 1 - expired + arrived;
    SameCount(before.mails, expires, (m: MailView) => ExpiresBetween(m, readId, before.serverNowMs, after.serverNowMs));
    SameCount(after.mails, fresh', (m: MailView) => Fresh(m, Keys(ViewKey, before.mails)));
    ok := after.unread == expected || (!exact && after.unread < expected);
  }
}
