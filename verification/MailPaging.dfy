/** Listing a mailbox page by page (robot/mail_smoke_scenario.go, listAll) against an arbitrary
    server and against the real one (go/mail/internal/data/inbox.go, List). */
module MailPaging {
  import opened MachineInts
  import opened Keyed

  const PAGE_SIZE := 50
  const MAX_PAGES := 10

  datatype MailView = MailView(id: nat, expireMs: nat, isRead: bool, claimable: bool)

  datatype Page = Page(mails: seq<MailView>, next: nat, unread: nat, claimable: nat, nowMs: nat)

  datatype Listing = Listing(mails: seq<MailView>, unread: nat, claimable: nat, serverNowMs: nat, singlePage: bool)

  /** What the server answers to the n-th call with a given cursor; None is a failed call. */
  type Server = (nat, nat) -> Option<Page>

  function ViewKey(mail: MailView): int { mail.id }

  /** The mails of the first n calls, in order. */
  function Collected(server: Server, cursors: seq<nat>, n: nat): seq<MailView>
    requires n <= |cursors|
  {
    if n == 0 then []
    else
      var page := server(n - 1, cursors[n - 1]);
      Collected(server, cursors, n - 1) + if page.Some? then page.value.mails else []
  }

  /** Each call but the first continues where the page before it said; cursors strictly decrease. */
  ghost predicate Chained(server: Server, cursors: seq<nat>) {
    && 1 <= |cursors| <= MAX_PAGES && cursors[0] == 0
    && (forall i :: 1 <= i < |cursors| ==> Continues(server, cursors, i))
    && (forall i, j :: 1 <= i < j < |cursors| ==> cursors[i] > cursors[j])
  }

  predicate Continues(server: Server, cursors: seq<nat>, i: nat)
    requires 1 <= i < |cursors|
  {
    var page := server(i - 1, cursors[i - 1]);
    page.Some? && page.value.mails != [] && page.value.next == cursors[i] != 0
  }

  /** The page said the list is over, or was empty. */
  predicate Over(page: Page) { page.next == 0 || page.mails == [] }

  /** The cursor failed to move down. */
  predicate Stuck(page: Page, cursor: nat) { cursor != 0 && page.next >= cursor }

  /** The call sequence stopped where it had to: a failed call, the end of the list, a cursor that
      did not advance, or the page budget. */
  predicate StopsHere(server: Server, cursors: seq<nat>)
    requires cursors != []
  {
    var cursor := cursors[|cursors| - 1];
    var page := server(|cursors| - 1, cursor);
    page.None? || Over(page.value) || Stuck(page.value, cursor) || |cursors| == MAX_PAGES
  }

  /** It is an error only if the last call failed or its cursor did not advance. */
  predicate Succeeds(server: Server, cursors: seq<nat>)
    requires cursors != []
  {
    var cursor := cursors[|cursors| - 1];
    var page := server(|cursors| - 1, cursor);
    page.Some? && (Over(page.value) || !Stuck(page.value, cursor))
  }

  /** A run of listAll that made the calls `cursors` and returned `result`. */
  ghost predicate Listed(server: Server, cursors: seq<nat>, result: Option<Listing>) {
    && Chained(server, cursors) && StopsHere(server, cursors)
    && (result.Some? <==> Succeeds(server, cursors))
    && (result.Some? ==>
          && server(0, 0).Some?
          && result.value == Listing(Collected(server, cursors, |cursors|), server(0, 0).value.unread,
                                     server(0, 0).value.claimable, server(0, 0).value.nowMs, server(0, 0).value.next == 0))
  }

  /** listAll: at most ten calls with strictly decreasing cursors, whatever the server does. */
  method ListAll(server: Server) returns (result: Option<Listing>, cursors: seq<nat>)
    ensures Listed(server, cursors, result) && |cursors| <= 10
  {
    var listing := Listing([], 0, 0, 0, false);
    var before := 0;
    cursors := [];
    for page := 0 to MAX_PAGES
      invariant |cursors| == page
      invariant page == 0 ==> before == 0 && listing.mails == []
      invariant page > 0 ==> Chained(server, cursors) && before != 0
      invariant page > 0 ==> var last := server(page - 1, cursors[page - 1]);
                             && last.Some? && last.value.mails != [] && last.value.next == before
                             && (cursors[page - 1] == 0 || before < cursors[page - 1])
      invariant page > 0 ==> server(0, 0).Some? && listing.unread == server(0, 0).value.unread
                             && listing.claimable == server(0, 0).value.claimable
                             && listing.serverNowMs == server(0, 0).value.nowMs
                             && listing.singlePage == (server(0, 0).value.next == 0)
      invariant listing.mails == Collected(server, cursors, page)
    {
      ghost var earlier := cursors;
      cursors := cursors + [before];
      CollectedPrefix(server, earlier, cursors, page);
      ExtendsChain(server, earlier, before);
      var resp := server(page, before);
      if resp.None? {
        return None, cursors;
      }
      if page == 0 {
        listing := Listing(listing.mails, resp.value.unread, resp.value.claimable, resp.value.nowMs, resp.value.next == 0);
      }
      listing := listing.(mails := listing.mails + resp.value.mails);
      if resp.value.next == 0 || resp.value.mails == [] {
        return Some(listing), cursors;
      }
      if before != 0 && resp.value.next >= before {
        return None, cursors;
      }
      before := resp.value.next;
    }
    result := Some(listing);
  }

  lemma ExtendsChain(server: Server, cursors: seq<nat>, next: nat)
    requires |cursors| < MAX_PAGES
    requires cursors == [] ==> next == 0
    requires cursors != [] ==> Chained(server, cursors) && next != 0
    requires cursors != [] ==> var last := server(|cursors| - 1, cursors[|cursors| - 1]);
                               && last.Some? && last.value.mails != [] && last.value.next == next
                               && (cursors[|cursors| - 1] == 0 || next < cursors[|cursors| - 1])
    ensures Chained(server, cursors + [next])
  {
    var longer := cursors + [next];
    forall i | 1 <= i < |longer|
      ensures Continues(server, longer, i)
    {
      if i < |cursors| {
        assert Continues(server, cursors, i);
      }
    }
    forall i, j | 1 <= i < j < |longer|
      ensures longer[i] > longer[j]
    {
      assert |cursors| > 1 ==> Continues(server, cursors, |cursors| - 1);
      if i < |cursors| - 1 {
        assert cursors[i] > cursors[|cursors| - 1];
      }
    }
  }

  lemma {:induction false} CollectedPrefix(server: Server, cursors: seq<nat>, longer: seq<nat>, n: nat)
    requires cursors <= longer && n <= |cursors|
    ensures Collected(server, longer, n) == Collected(server, cursors, n)
  {
    if n > 0 {
      CollectedPrefix(server, cursors, longer, n - 1);
    }
  }

  // ---- The real server ----

  predicate Descending(box: seq<MailView>) {
    forall i, j :: 0 <= i < j < |box| ==> box[i].id > box[j].id
  }

  /** The part of a descending mailbox below the cursor; cursor 0 means all of it. */
  function Eligible(box: seq<MailView>, cursor: nat): seq<MailView> {
    if cursor == 0 || box == [] || box[0].id < cursor then box else Eligible(box[1..], cursor)
  }

  function Unread(mail: MailView): bool { !mail.isRead }

  function CountUnread(box: seq<MailView>): nat { CountIf(box, Unread) }

  /** Unexpired mails whose attachments can still be claimed. */
  function CountClaimable(box: seq<MailView>, nowMs: nat): nat {
    CountIf(box, (m: MailView) => m.claimable && m.expireMs > nowMs)
  }

  /** One ListMails answer: a page of the eligible mails, and a cursor if there are more.  Unread and
      claimable mails are counted over the whole mailbox with the same clock. */
  function Serve(box: seq<MailView>, cursor: nat, nowMs: nat): Page {
    var eligible := Eligible(box, cursor);
    if |eligible| > PAGE_SIZE
    then Page(eligible[..PAGE_SIZE], eligible[PAGE_SIZE - 1].id, CountUnread(box), CountClaimable(box, nowMs), nowMs)
    else Page(eligible, 0, CountUnread(box), CountClaimable(box, nowMs), nowMs)
  }

  lemma {:induction false} EligibleAfter(box: seq<MailView>, k: nat)
    requires Descending(box) && 0 < k <= |box| && box[k - 1].id != 0
    ensures Eligible(box, box[k - 1].id) == box[k..]
  {
    if k == 1 {
      assert Eligible(box, box[0].id) == Eligible(box[1..], box[0].id);
      assert box[1..] != [] ==> box[1..][0].id < box[0].id;
    } else {
      assert box[0].id > box[k - 1].id;
      assert box[1..][k - 2] == box[k - 1];
      EligibleAfter(box[1..], k - 1);
      assert box[1..][k - 1..] == box[k..];
    }
  }

  function Fixed(box: seq<MailView>, nowMs: nat): Server {
    (n: nat, cursor: nat) => Some(Serve(box, cursor, nowMs))
  }

  /** A page that names a next cursor is a full one, and the cursor continues right behind it. */
  lemma NextPage(box: seq<MailView>, nowMs: nat, cursor: nat, m: nat)
    requires Descending(box) && m <= |box| && Eligible(box, cursor) == box[m..]
    requires Serve(box, cursor, nowMs).next != 0
    ensures m + PAGE_SIZE < |box| && Serve(box, cursor, nowMs).mails == box[m..][..PAGE_SIZE]
    ensures var next := Serve(box, cursor, nowMs).next;
            next == box[m + PAGE_SIZE - 1].id && Eligible(box, next) == box[m + PAGE_SIZE..]
  {
    assert box[m..][PAGE_SIZE - 1] == box[m + PAGE_SIZE - 1];
    EligibleAfter(box, m + PAGE_SIZE);
  }

  /** Against a fixed mailbox the first n calls return its first n pages. */
  lemma {:induction false} FixedPages(box: seq<MailView>, nowMs: nat, cursors: seq<nat>, n: nat)
    requires Descending(box) && Chained(Fixed(box, nowMs), cursors) && n < |cursors|
    ensures n * PAGE_SIZE <= |box| && (n > 0 ==> n * PAGE_SIZE < |box| && cursors[n] == box[n * PAGE_SIZE - 1].id)
    ensures Eligible(box, cursors[n]) == box[n * PAGE_SIZE..]
    ensures Collected(Fixed(box, nowMs), cursors, n) == box[..n * PAGE_SIZE]
  {
    if n > 0 {
      FixedPages(box, nowMs, cursors, n - 1);
      assert Continues(Fixed(box, nowMs), cursors, n);
      NextPage(box, nowMs, cursors[n - 1], (n - 1) * PAGE_SIZE);
      TakeMore(box, (n - 1) * PAGE_SIZE, PAGE_SIZE);
    }
  }

  /** listAll returns a fixed mailbox in order, cut at ten pages; so it returns all of it exactly
      when it fits, and singlePage says exactly that one page sufficed. */
  lemma ListsFixedMailbox(box: seq<MailView>, nowMs: nat, cursors: seq<nat>, result: Option<Listing>)
    requires Descending(box) && Listed(Fixed(box, nowMs), cursors, result)
    ensures result.Some?
    ensures result.value.mails == box[..Min(|box|, 500)]
    ensures result.value.mails == box <==> |box| <= 500
    ensures result.value.singlePage <==> |box| <= 50
    ensures result.value.unread == CountUnread(box) && result.value.claimable == CountClaimable(box, nowMs)
  {
    CollectsFixedMailbox(box, nowMs, cursors, result);
    if |box| <= MAX_PAGES * PAGE_SIZE {
      assert box[..|box|] == box;
    } else {
      assert |box[..MAX_PAGES * PAGE_SIZE]| < |box|;
    }
    if |box| > PAGE_SIZE {
      assert box[PAGE_SIZE - 1].id > box[PAGE_SIZE].id;
    }
  }

  lemma TakeMore<T>(s: seq<T>, m: nat, k: nat)
    requires m + k <= |s|
    ensures s[..m] + s[m..][..k] == s[..m + k]
  {
  }

  /** One page more than the first m mails. */
  lemma PageExtends(box: seq<MailView>, m: nat)
    requires m <= |box|
    ensures box[..m] + (if |box| - m > PAGE_SIZE then box[m..][..PAGE_SIZE] else box[m..]) == box[..Min(|box|, m + PAGE_SIZE)]
  {
    TakeMore(box, m, Min(|box| - m, PAGE_SIZE));
    assert box[m..][..|box| - m] == box[m..];
  }

  lemma CollectsFixedMailbox(box: seq<MailView>, nowMs: nat, cursors: seq<nat>, result: Option<Listing>)
    requires Descending(box) && Listed(Fixed(box, nowMs), cursors, result)
    ensures result.Some?
    ensures Collected(Fixed(box, nowMs), cursors, |cursors|) == box[..Min(|box|, MAX_PAGES * PAGE_SIZE)]
  {
    var n := |cursors| - 1;
    var m := n * PAGE_SIZE;
    FixedPages(box, nowMs, cursors, n);
    PageExtends(box, m);
    assert Collected(Fixed(box, nowMs), cursors, n + 1) == box[..Min(|box|, m + PAGE_SIZE)];
    if |box| > m + PAGE_SIZE {
      LastCallIsTenth(box, nowMs, cursors, result, n);
    }
  }

  /** The loop stops before the last page only when its ten pages are used up. */
  lemma LastCallIsTenth(box: seq<MailView>, nowMs: nat, cursors: seq<nat>, result: Option<Listing>, n: nat)
    requires Descending(box) && Listed(Fixed(box, nowMs), cursors, result) && n == |cursors| - 1
    requires (n + 1) * PAGE_SIZE < |box|
    ensures result.Some? && |cursors| == MAX_PAGES
  {
    FixedPages(box, nowMs, cursors, n);
    var rest := box[n * PAGE_SIZE..];
    assert rest[PAGE_SIZE - 1] == box[(n + 1) * PAGE_SIZE - 1];
    assert box[(n + 1) * PAGE_SIZE - 1].id > box[(n + 1) * PAGE_SIZE].id;
    if n > 0 {
      assert box[n * PAGE_SIZE - 1].id > box[(n + 1) * PAGE_SIZE - 1].id;
    }
  }

  // ---- A server determines its listing ----

  lemma ChainGoesOn(server: Server, cursors: seq<nat>, n: nat)
    requires Chained(server, cursors) && 1 <= n < |cursors|
    ensures !StopsHere(server, cursors[..n])
  {
    assert Continues(server, cursors, n);
    assert n > 1 ==> cursors[n - 1] > cursors[n];
  }

  /** Where a listing stops there is no further call. */
  lemma NoFurtherCall(server: Server, cursors: seq<nat>, longer: seq<nat>)
    requires Chained(server, cursors) && StopsHere(server, cursors) && Chained(server, longer) && cursors <= longer
    ensures longer == cursors
  {
    assert longer[..|cursors|] == cursors;
    if |cursors| < |longer| {
      ChainGoesOn(server, longer, |cursors|);
    }
  }

  lemma CallsAgreeAt(server: Server, a: seq<nat>, b: seq<nat>, i: nat)
    requires Chained(server, a) && Chained(server, b) && i < |a| && i < |b| && a[..i] == b[..i]
    ensures a[i] == b[i]
  {
    if i > 0 {
      assert a[..i][i - 1] == b[..i][i - 1];
      assert Continues(server, a, i) && Continues(server, b, i);
    }
  }

  /** listAll makes the same calls and returns the same whenever the server answers the same. */
  lemma ListingIsDetermined(server: Server, a: seq<nat>, x: Option<Listing>, b: seq<nat>, y: Option<Listing>)
    requires Listed(server, a, x) && Listed(server, b, y)
    ensures a == b && x == y
  {
    var n := if |a| <= |b| then |a| else |b|;
    forall i | 0 <= i < n && a[..i] == b[..i]
      ensures a[i] == b[i]
    {
      CallsAgreeAt(server, a, b, i);
    }
    AgreeStepByStep(a, b, n);
    assert a[..|a|] == a && b[..|b|] == b;
    if |a| <= |b| {
      NoFurtherCall(server, a, b);
    } else {
      NoFurtherCall(server, b, a);
    }
  }

  /** The claimable count is the number of mails listed that are unexpired and can be claimed. */
  lemma ClaimableAreCounted(box: seq<MailView>, nowMs: nat)
    requires Descending(box)
    ensures CountClaimable(box, nowMs) == |set i | 0 <= i < |box| && box[i].claimable && box[i].expireMs > nowMs :: box[i].id|
  {
    var p := (m: MailView) => m.claimable && m.expireMs > nowMs;
    CountIsKeys(ViewKey, box, p);
    var ids: set<int> := set i | 0 <= i < |box| && box[i].claimable && box[i].expireMs > nowMs :: box[i].id;
    assert KeysWhere(ViewKey, box, p) == ids;
  }
}
