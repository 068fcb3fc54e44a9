/** iter_networks: pages of networks, continued from the last id seen. What holds of it against any daemon,
    and against one whose list changes between the pages. */
module NetworkWalk {
  import opened Client
  import opened Connection
  import opened Replies
  import opened ReplyLaws
  import opened Text
  import opened Transport
  import opened Wrappers

  // ----- the account of a walk

  /** The networks of a reply that are not seen yet. The reply itself may list one twice. */
  function Unseen(networks: seq<Network>, seen: set<int>): (unseen: seq<Network>)
    ensures forall i | 0 <= i < |unseen| :: unseen[i].id !in seen
  {
    if networks == [] then []
    else
      var earlier, last := Unseen(networks[..|networks| - 1], seen), networks[|networks| - 1];
      if last.id in seen then earlier else earlier + [last]
  }

  function IdsOf(networks: seq<Network>): set<int> {
    set n | n in networks :: n.id
  }

  function IdsIn(pages: seq<seq<Network>>): set<int> {
    if pages == [] then {} else IdsIn(pages[..|pages| - 1]) + IdsOf(pages[|pages| - 1])
  }

  /** One round trip: what was sent, what came back, and the networks in it. */
  datatype PageExchange = PageExchange(command: string, reply: string, networks: seq<Network>)

  predicate AllRead(exchanges: seq<PageExchange>) {
    forall i | 0 <= i < |exchanges| :: Read(exchanges[i])
  }

  predicate Read(x: PageExchange) {
    x.networks == Networks(x.reply)
  }

  lemma AllReadMore(exchanges: seq<PageExchange>, x: PageExchange)
    requires AllRead(exchanges) && Read(x)
    ensures AllRead(exchanges + [x])
  {
  }

  function LastId(page: seq<Network>): int
    requires page != []
  {
    page[|page| - 1].id
  }

  function CommandAfter(page: seq<Network>): string {
    if page == [] then "LIST_NETWORKS" else "LIST_NETWORKS LAST_ID=" + IntText(LastId(page))
  }

  /** The page a command goes on from: none for the first. */
  function PageBefore(pages: seq<seq<Network>>, i: nat): seq<Network>
    requires i <= |pages|
  {
    if i == 0 then [] else pages[i - 1]
  }

  predicate PageAt(exchanges: seq<PageExchange>, pages: seq<seq<Network>>, i: nat)
    requires i < |exchanges| && i < |pages|
  {
    && exchanges[i].command == CommandAfter(PageBefore(pages, i))
    && pages[i] != [] && pages[i] == Unseen(exchanges[i].networks, IdsIn(pages[..i]))
  }

  /** The exchanges of a walk and the pages of networks it took from them: each goes on from the last id of
      the page before, and holds what was unseen; a finished walk ended on a page with nothing unseen. */
  ghost predicate WalkOf(exchanges: seq<PageExchange>, pages: seq<seq<Network>>, finished: bool) {
    && |exchanges| == |pages| + (if finished then 1 else 0)
    && (forall i | 0 <= i < |pages| :: PageAt(exchanges, pages, i))
    && (finished ==>
          exchanges[|pages|].command == CommandAfter(PageBefore(pages, |pages|))
          && Unseen(exchanges[|pages|].networks, IdsIn(pages)) == [])
  }

  lemma WalkEnds(exchanges: seq<PageExchange>, pages: seq<seq<Network>>, x: PageExchange)
    requires WalkOf(exchanges, pages, false)
    requires x.command == CommandAfter(PageBefore(pages, |pages|)) && Unseen(x.networks, IdsIn(pages)) == []
    ensures WalkOf(exchanges + [x], pages, true)
  {
    forall i | 0 <= i < |pages| ensures PageAt(exchanges + [x], pages, i) {
      assert PageAt(exchanges, pages, i);
    }
  }

  lemma WalkGrows(exchanges: seq<PageExchange>, pages: seq<seq<Network>>, x: PageExchange,
                  page: seq<Network>)
    requires WalkOf(exchanges, pages, false)
    requires x.command == CommandAfter(PageBefore(pages, |pages|))
    requires page != [] && page == Unseen(x.networks, IdsIn(pages))
    ensures WalkOf(exchanges + [x], pages + [page], false)
  {
    var longer := pages + [page];
    forall i | 0 <= i < |longer| ensures PageAt(exchanges + [x], longer, i) {
      assert longer[..i] == pages[..i] && PageBefore(longer, i) == PageBefore(pages, i);
      if i < |pages| {
        assert PageAt(exchanges, pages, i);
      } else {
        assert pages[..i] == pages;
      }
    }
  }

  /** What the pages yield, one network after another. */
  function Flat(pages: seq<seq<Network>>): seq<Network> {
    if pages == [] then [] else Flat(pages[..|pages| - 1]) + pages[|pages| - 1]
  }

  lemma FlatMore(pages: seq<seq<Network>>, page: seq<Network>)
    ensures Flat(pages + [page]) == Flat(pages) + page
  {
    assert (pages + [page])[..|pages|] == pages;
  }

  lemma {:induction false} IdsOfFlat(pages: seq<seq<Network>>)
    ensures IdsOf(Flat(pages)) == IdsIn(pages)
  {
    if pages != [] {
      IdsOfFlat(pages[..|pages| - 1]);
      IdsOfAppend(Flat(pages[..|pages| - 1]), pages[|pages| - 1]);
    }
  }

  lemma IdsOfAppend(a: seq<Network>, b: seq<Network>)
    ensures IdsOf(a + b) == IdsOf(a) + IdsOf(b)
  {
  }

  /** What is sent: the list from its start, and then from behind the last network of the page before. */
  predicate SendsList(exchanges: seq<PageExchange>, pages: seq<seq<Network>>, i: nat)
    requires i < |exchanges| && i <= |pages|
  {
    if i == 0 then exchanges[i].command == "LIST_NETWORKS"
    else
      var page := pages[i - 1];
      page != [] && exchanges[i].command == "LIST_NETWORKS LAST_ID=" + IntText(page[|page| - 1].id)
  }

  lemma CommandGoesOn(exchanges: seq<PageExchange>, pages: seq<seq<Network>>, finished: bool, i: nat)
    requires WalkOf(exchanges, pages, finished) && i < |exchanges|
    ensures i <= |pages| && exchanges[i].command == CommandAfter(PageBefore(pages, i))
    ensures i > 0 ==> pages[i - 1] != []
  {
    assert i > 0 ==> PageAt(exchanges, pages, i - 1);
    assert i < |pages| ==> PageAt(exchanges, pages, i);
  }

  lemma CommandsSent(exchanges: seq<PageExchange>, pages: seq<seq<Network>>, finished: bool, i: nat)
    requires WalkOf(exchanges, pages, finished) && i < |exchanges|
    ensures SendsList(exchanges, pages, i)
  {
    CommandGoesOn(exchanges, pages, finished, i);
  }

  /** Each network is looked at by itself, in the order of the reply. */
  lemma {:induction false} UnseenAppend(a: seq<Network>, b: seq<Network>, seen: set<int>)
    ensures Unseen(a + b, seen) == Unseen(a, seen) + Unseen(b, seen)
  {
    if b == [] {
      assert a + b == a;
    } else {
      var n := |b| - 1;
      assert (a + b)[..|a + b| - 1] == a + b[..n];
      UnseenAppend(a, b[..n], seen);
    }
  }

  lemma UnseenOne(n: Network, seen: set<int>)
    ensures Unseen([n], seen) == if n.id in seen then [] else [n]
  {
    assert [n][..0] == [];
  }

  // ----- against any daemon

  lemma {:induction false} IdsInPage(pages: seq<seq<Network>>, i: nat, n: Network)
    requires i < |pages| && n in pages[i]
    ensures n.id in IdsIn(pages)
    decreases |pages|
  {
    if i < |pages| - 1 {
      IdsInPage(pages[..|pages| - 1], i, n);
    }
  }

  predicate DistinctIds(networks: seq<Network>) {
    forall i, j | 0 <= i < j < |networks| :: networks[i].id != networks[j].id
  }

  lemma DistinctInParts(a: seq<Network>, b: seq<Network>)
    requires forall i, j | 0 <= i < |a| && 0 <= j < |b| :: a[i].id != b[j].id
    ensures DistinctIds(a + b) <==> DistinctIds(a) && DistinctIds(b)
  {
    var s := a + b;
    if DistinctIds(s) {
      assert forall i | 0 <= i < |a| :: a[i] == s[i];
      assert forall i | 0 <= i < |b| :: b[i] == s[|a| + i];
    }
  }

  lemma PageIsApart(exchanges: seq<PageExchange>, pages: seq<seq<Network>>, finished: bool, k: nat)
    requires WalkOf(exchanges, pages, finished) && k < |pages|
    ensures forall i, j | 0 <= i < |Flat(pages[..k])| && 0 <= j < |pages[k]| ::
      Flat(pages[..k])[i].id != pages[k][j].id
  {
    assert PageAt(exchanges, pages, k);
    IdsOfFlat(pages[..k]);
    forall i | 0 <= i < |Flat(pages[..k])| ensures Flat(pages[..k])[i].id in IdsIn(pages[..k]) {
      assert Flat(pages[..k])[i] in Flat(pages[..k]);
    }
  }

  /** No page up to the k-th lists an id twice. */
  predicate PagesDistinct(pages: seq<seq<Network>>, k: nat)
    requires k <= |pages|
  {
    forall i | 0 <= i < k :: DistinctIds(pages[i])
  }

  lemma FlatUpTo(pages: seq<seq<Network>>, k: nat)
    requires 0 < k <= |pages|
    ensures Flat(pages[..k]) == Flat(pages[..k - 1]) + pages[k - 1]
  {
    OneMore(pages, k - 1);
    FlatMore(pages[..k - 1], pages[k - 1]);
  }

  /** No id is yielded twice if and only if no page has one twice: seen is filled as a page is yielded, so
      what two pages list comes once, but what one reply lists twice comes twice. */
  lemma {:induction false} RepeatsAreWithinPages(exchanges: seq<PageExchange>, pages: seq<seq<Network>>,
                                                 finished: bool, k: nat)
    requires WalkOf(exchanges, pages, finished) && k <= |pages|
    ensures DistinctIds(Flat(pages[..k])) <==> PagesDistinct(pages, k)
  {
    if k > 0 {
      RepeatsAreWithinPages(exchanges, pages, finished, k - 1);
      PageIsApart(exchanges, pages, finished, k - 1);
      DistinctInParts(Flat(pages[..k - 1]), pages[k - 1]);
      FlatUpTo(pages, k);
    }
  }

  /** The ids the first k replies list. */
  function ListedBefore(exchanges: seq<PageExchange>, k: nat): set<int>
    requires k <= |exchanges|
  {
    if k == 0 then {} else ListedBefore(exchanges, k - 1) + IdsOf(exchanges[k - 1].networks)
  }

  lemma {:induction false} UnseenIds(networks: seq<Network>, seen: set<int>)
    ensures IdsOf(Unseen(networks, seen)) + seen == IdsOf(networks) + seen
  {
    if networks != [] {
      var n := |networks| - 1;
      UnseenIds(networks[..n], seen);
      assert networks == networks[..n] + [networks[n]];
      IdsOfAppend(networks[..n], [networks[n]]);
      IdsOfAppend(Unseen(networks[..n], seen), [networks[n]]);
    }
  }

  /** What has been seen is what the replies listed. */
  lemma {:induction false} SeenIsListed(exchanges: seq<PageExchange>, pages: seq<seq<Network>>,
                                        finished: bool, k: nat)
    requires WalkOf(exchanges, pages, finished) && k <= |pages|
    ensures IdsIn(pages[..k]) == ListedBefore(exchanges, k)
  {
    if k > 0 {
      SeenIsListed(exchanges, pages, finished, k - 1);
      assert PageAt(exchanges, pages, k - 1);
      assert pages[..k][..k - 1] == pages[..k - 1];
      UnseenIds(exchanges[k - 1].networks, IdsIn(pages[..k - 1]));
    }
  }

  /** No id outside the set is listed twice. */
  predicate NoneTwice(networks: seq<Network>, seen: set<int>) {
    forall i, j | 0 <= i < j < |networks| :: networks[i].id == networks[j].id ==> networks[i].id in seen
  }

  lemma NoneTwiceMore(networks: seq<Network>, n: Network, seen: set<int>)
    ensures NoneTwice(networks + [n], seen)
       <==> NoneTwice(networks, seen) && (n.id in seen || n.id !in IdsOf(networks))
  {
    var more := networks + [n];
    if NoneTwice(more, seen) {
      assert forall i | 0 <= i < |networks| :: networks[i] == more[i];
      if n.id in IdsOf(networks) {
        var m :| m in networks && m.id == n.id;
        var i :| 0 <= i < |networks| && networks[i] == m;
        assert more[i].id == more[|networks|].id;
      }
    }
  }

  lemma DistinctMore(networks: seq<Network>, n: Network)
    ensures DistinctIds(networks + [n]) <==> DistinctIds(networks) && n.id !in IdsOf(networks)
  {
    NoneTwiceMore(networks, n, {});
  }

  lemma {:induction false} UnseenDistinct(networks: seq<Network>, seen: set<int>)
    ensures DistinctIds(Unseen(networks, seen)) <==> NoneTwice(networks, seen)
  {
    if networks != [] {
      var earlier, last := networks[..|networks| - 1], networks[|networks| - 1];
      UnseenDistinct(earlier, seen);
      UnseenIds(earlier, seen);
      assert networks == earlier + [last];
      NoneTwiceMore(earlier, last, seen);
      DistinctMore(Unseen(earlier, seen), last);
    }
  }

  /** No reply that gave a page lists an id twice that no earlier reply lists. */
  ghost predicate RepliesDistinct(exchanges: seq<PageExchange>, k: nat)
    requires k <= |exchanges|
  {
    forall i | 0 <= i < k :: NoneTwice(exchanges[i].networks, ListedBefore(exchanges, i))
  }

  lemma PageDistinctExactlyWhen(exchanges: seq<PageExchange>, pages: seq<seq<Network>>, finished: bool, i: nat)
    requires WalkOf(exchanges, pages, finished) && i < |pages|
    ensures DistinctIds(pages[i]) <==> NoneTwice(exchanges[i].networks, ListedBefore(exchanges, i))
  {
    assert PageAt(exchanges, pages, i);
    SeenIsListed(exchanges, pages, finished, i);
    UnseenDistinct(exchanges[i].networks, IdsIn(pages[..i]));
  }

  /** Against any daemon, in terms of what it sends: an id is yielded twice if and only if some reply is the
      first to list it and lists it twice. */
  lemma RepeatsAreWithinReplies(exchanges: seq<PageExchange>, pages: seq<seq<Network>>, finished: bool)
    requires WalkOf(exchanges, pages, finished)
    ensures DistinctIds(Flat(pages)) <==> RepliesDistinct(exchanges, |pages|)
  {
    RepeatsAreWithinPages(exchanges, pages, finished, |pages|);
    assert pages[..|pages|] == pages;
    forall i | 0 <= i < |pages|
      ensures DistinctIds(pages[i]) <==> NoneTwice(exchanges[i].networks, ListedBefore(exchanges, i))
    {
      PageDistinctExactlyWhen(exchanges, pages, finished, i);
    }
  }

  lemma UnseenPair(n: Network)
    ensures Unseen([n, n], {}) == [n, n]
  {
    assert [n, n][..1] == [n] && [n][..0] == [];
    assert Unseen([n], {}) == [n];
  }

  /** What passes in a walk whose first reply lists a network in two rows, and whose second lists none. */
  function RepeatedRow(header: string, n: Network): (exchanges: seq<PageExchange>)
    ensures |exchanges| == 2
  {
    [PageExchange(CommandAfter([]), TableText(header, NetworkRows([n, n])), [n, n]),
     PageExchange(CommandAfter([n, n]), TableText(header, NetworkRows([])), [])]
  }

  lemma PrintedPageIsRead(header: string, command: string, networks: seq<Network>)
    requires header != "" && OneLine(header) && forall i | 0 <= i < |networks| :: CleanNetwork(networks[i])
    ensures Read(PageExchange(command, TableText(header, NetworkRows(networks)), networks))
  {
    NetworksReadBack(header, networks);
  }

  lemma TwoRead(first: PageExchange, second: PageExchange)
    requires Read(first) && Read(second)
    ensures AllRead([first, second])
  {
  }

  lemma RepeatedRowIsRead(header: string, n: Network)
    requires header != "" && OneLine(header) && CleanNetwork(n)
    ensures AllRead(RepeatedRow(header, n))
  {
    PrintedPageIsRead(header, CommandAfter([]), [n, n]);
    PrintedPageIsRead(header, CommandAfter([n, n]), []);
    TwoRead(PageExchange(CommandAfter([]), TableText(header, NetworkRows([n, n])), [n, n]),
            PageExchange(CommandAfter([n, n]), TableText(header, NetworkRows([])), []));
  }

  lemma RepeatedRowIsWalk(n: Network, exchanges: seq<PageExchange>)
    requires |exchanges| == 2 && exchanges[0].command == CommandAfter([]) && exchanges[0].networks == [n, n]
    requires exchanges[1].command == CommandAfter([n, n]) && exchanges[1].networks == []
    ensures WalkOf(exchanges, [[n, n]], true) && Flat([[n, n]]) == [n, n]
  {
    UnseenPair(n);
    assert [[n, n]][..0] == [];
    assert PageAt(exchanges, [[n, n]], 0);
    assert Flat([]) + [n, n] == [n, n];
  }

  /** That walk yields the network twice. */
  lemma RepeatedRowIsYieldedTwice(header: string, n: Network)
    requires header != "" && OneLine(header) && CleanNetwork(n)
    ensures AllRead(RepeatedRow(header, n)) && WalkOf(RepeatedRow(header, n), [[n, n]], true)
    ensures Flat([[n, n]]) == [n, n]
  {
    RepeatedRowIsRead(header, n);
    RepeatedRowIsWalk(n, RepeatedRow(header, n));
  }

  /** The first network of a page is new. */
  predicate StartsNew(pages: seq<seq<Network>>, k: nat)
    requires k < |pages|
  {
    pages[k] != [] && pages[k][0].id !in IdsIn(pages[..k])
  }

  lemma PageAddsId(earlier: seq<seq<Network>>, page: seq<Network>)
    requires page != [] && page[0].id !in IdsIn(earlier)
    ensures |IdsIn(earlier + [page])| >= |IdsIn(earlier)| + 1
  {
    assert (earlier + [page])[..|earlier|] == earlier;
    assert page[0] in page && page[0].id in IdsOf(page);
    Smaller(IdsIn(earlier) + {page[0].id}, IdsIn(earlier + [page]));
  }

  lemma {:induction false} NewPagesAddIds(pages: seq<seq<Network>>, k: nat)
    requires k <= |pages| && forall i | 0 <= i < |pages| :: StartsNew(pages, i)
    ensures k <= |IdsIn(pages[..k])|
  {
    if k > 0 {
      NewPagesAddIds(pages, k - 1);
      assert StartsNew(pages, k - 1);
      PageAddsId(pages[..k - 1], pages[k - 1]);
      OneMore(pages, k - 1);
    }
  }

  lemma PagesAddIds(exchanges: seq<PageExchange>, pages: seq<seq<Network>>, finished: bool)
    requires WalkOf(exchanges, pages, finished)
    ensures |pages| <= |IdsIn(pages[..|pages|])|
  {
    forall i | 0 <= i < |pages| ensures StartsNew(pages, i) {
      assert PageAt(exchanges, pages, i);
    }
    NewPagesAddIds(pages, |pages|);
  }

  lemma {:induction false} Smaller<T>(a: set<T>, b: set<T>)
    requires a <= b
    ensures |a| <= |b|
  {
    if a != {} {
      var x :| x in a;
      Smaller(a - {x}, b - {x});
    }
  }

  lemma {:induction false} IdsWithin(exchanges: seq<PageExchange>, pages: seq<seq<Network>>,
                                     finished: bool, named: set<int>, k: nat)
    requires WalkOf(exchanges, pages, finished) && k <= |pages|
    requires forall i | 0 <= i < |exchanges| :: IdsOf(exchanges[i].networks) <= named
    ensures IdsIn(pages[..k]) <= named
  {
    if k > 0 {
      IdsWithin(exchanges, pages, finished, named, k - 1);
      assert PageAt(exchanges, pages, k - 1);
      assert pages[..k][..k - 1] == pages[..k - 1];
      UnseenIsPart(exchanges[k - 1].networks, IdsIn(pages[..k - 1]));
    }
  }

  lemma {:induction false} UnseenIsPart(networks: seq<Network>, seen: set<int>)
    ensures forall n | n in Unseen(networks, seen) :: n in networks
  {
    if networks != [] {
      UnseenIsPart(networks[..|networks| - 1], seen);
    }
  }

  /** Against any daemon, however broken: if it ever lists only ids of a set, the walk sends at most one
      command more than the set has elements, a last one that fails included. */
  lemma CommandsAreBounded(exchanges: seq<PageExchange>, pages: seq<seq<Network>>, finished: bool,
                           failed: bool, named: set<int>)
    requires WalkOf(exchanges, pages, finished) && !(finished && failed)
    requires forall i | 0 <= i < |exchanges| :: IdsOf(exchanges[i].networks) <= named
    ensures |exchanges| + (if failed then 1 else 0) <= |named| + 1
  {
    PagesAddIds(exchanges, pages, finished);
    IdsWithin(exchanges, pages, finished, named, |pages|);
    Smaller(IdsIn(pages[..|pages|]), named);
  }

  /** What a daemon answers that does not know the continuation. */
  predicate IsUnknownCommand(reply: string) {
    reply == "UNKNOWN COMMAND"
  }

  lemma OneLineListsNothing(reply: string)
    requires OneLine(reply) && reply != ""
    ensures Networks(reply) == []
  {
    SplitLinesLast(reply);
  }

  lemma UnknownCommandIsOneLine(reply: string)
    requires IsUnknownCommand(reply)
    ensures OneLine(reply) && reply != ""
  {
  }

  lemma UnknownCommandListsNothing(reply: string)
    requires IsUnknownCommand(reply)
    ensures Networks(reply) == []
  {
    UnknownCommandIsOneLine(reply);
    OneLineListsNothing(reply);
  }

  lemma PageListsSomething(exchanges: seq<PageExchange>, pages: seq<seq<Network>>, finished: bool, i: nat)
    requires WalkOf(exchanges, pages, finished) && AllRead(exchanges) && i < |pages|
    ensures Networks(exchanges[i].reply) != []
  {
    assert PageAt(exchanges, pages, i) && Read(exchanges[i]);
  }

  lemma FlatOfOne(page: seq<Network>)
    ensures Flat([page]) == page
  {
    assert [page][..0] == [] && Flat([]) + page == page;
  }

  lemma NothingSeenFirst(exchanges: seq<PageExchange>, page: seq<Network>)
    requires exchanges != [] && PageAt(exchanges, [page], 0)
    ensures page == exchanges[0].networks
  {
    assert [page][..0] == [];
    AllUnseen(exchanges[0].networks, {});
  }

  lemma FirstPage(exchanges: seq<PageExchange>, pages: seq<seq<Network>>)
    requires WalkOf(exchanges, pages, true) && |pages| <= 1
    ensures Flat(pages) == exchanges[0].networks
  {
    if pages == [] {
      AllUnseen(exchanges[0].networks, {});
    } else {
      assert pages == [pages[0]];
      NothingSeenFirst(exchanges, pages[0]);
      FlatOfOne(pages[0]);
    }
  }

  /** Against such a daemon a walk that ends has yielded what the first reply lists, having asked at most once
      more. */
  lemma UnknownCommandEndsTheWalk(exchanges: seq<PageExchange>, pages: seq<seq<Network>>, finished: bool)
    requires WalkOf(exchanges, pages, finished) && AllRead(exchanges)
    requires forall i | 0 < i < |exchanges| :: IsUnknownCommand(exchanges[i].reply)
    ensures |pages| <= 1 && |exchanges| <= 2
    ensures finished ==> Flat(pages) == exchanges[0].networks
  {
    if |pages| > 1 {
      UnknownCommandListsNothing(exchanges[1].reply);
      PageListsSomething(exchanges, pages, finished, 1);
    }
    if finished {
      FirstPage(exchanges, pages);
    }
  }

  // ----- against a daemon whose list changes

  /** The configured networks, by id. */
  type Table = map<nat, Network>

  predicate CleanTable(t: Table) {
    forall id | id in t :: t[id].id == id && CleanNetwork(t[id])
  }

  predicate NoneAfter(t: Table, bound: int) {
    forall id | id in t :: id <= bound
  }

  /** A page: some of the first networks after the bound, in the order of their ids, and at least one if
      there is any. */
  ghost predicate IsPage(t: Table, bound: int, page: seq<Network>) {
    && (forall i | 0 <= i < |page| :: Listed(t, bound, page[i]))
    && (forall i, j | 0 <= i < j < |page| :: page[i].id < page[j].id)
    && (if page == [] then NoneAfter(t, bound)
        else forall id | id in t && bound < id <= LastId(page) :: id in IdsOf(page))
  }

  predicate Listed(t: Table, bound: int, n: Network) {
    n.id >= 0 && n.id in t && t[n.id] == n && n.id > bound
  }

  ghost predicate RepliesAfter(header: string, t: Table, bound: int, reply: string) {
    exists page :: IsPage(t, bound, page) && reply == TableText(header, NetworkRows(page))
  }

  /** The documented answers: LAST_ID=n goes on with the ids above n, whether or not n is still there. */
  ghost predicate RepliesTo(header: string, t: Table, command: string, reply: string) {
    && (command == "LIST_NETWORKS" ==> RepliesAfter(header, t, -1, reply))
    && (forall id: int :: RepliesToNext(header, t, command, reply, id))
  }

  ghost predicate RepliesToNext(header: string, t: Table, command: string, reply: string, id: int) {
    command == "LIST_NETWORKS LAST_ID=" + IntText(id) ==> RepliesAfter(header, t, id, reply)
  }

  ghost predicate Served(header: string, tables: seq<Table>, exchanges: seq<PageExchange>) {
    && header != "" && OneLine(header) && |tables| == |exchanges|
    && forall i | 0 <= i < |tables| :: ServedAt(header, tables, exchanges, i)
  }

  ghost predicate ServedAt(header: string, tables: seq<Table>, exchanges: seq<PageExchange>, i: nat)
    requires i < |tables| && i < |exchanges|
  {
    CleanTable(tables[i]) && RepliesTo(header, tables[i], exchanges[i].command, exchanges[i].reply)
  }

  /** The bound of the command that goes on from a page. */
  function BoundAfter(page: seq<Network>): int {
    if page == [] then -1 else LastId(page)
  }

  lemma ReplyIsPage(header: string, t: Table, before: seq<Network>, x: PageExchange)
    requires header != "" && OneLine(header) && CleanTable(t) && Read(x)
    requires x.command == CommandAfter(before) && RepliesTo(header, t, x.command, x.reply)
    ensures IsPage(t, BoundAfter(before), x.networks)
  {
    assert before != [] ==> RepliesToNext(header, t, x.command, x.reply, LastId(before));
    assert RepliesAfter(header, t, BoundAfter(before), x.reply);
    var page :| IsPage(t, BoundAfter(before), page) && x.reply == TableText(header, NetworkRows(page));
    forall i | 0 <= i < |page| ensures CleanNetwork(page[i]) {
      assert Listed(t, BoundAfter(before), page[i]);
    }
    NetworksReadBack(header, page);
  }

  lemma {:induction false} AllUnseen(networks: seq<Network>, seen: set<int>)
    requires forall i | 0 <= i < |networks| :: networks[i].id !in seen
    ensures Unseen(networks, seen) == networks
  {
    if networks != [] {
      AllUnseen(networks[..|networks| - 1], seen);
      assert networks == networks[..|networks| - 1] + [networks[|networks| - 1]];
    }
  }

  /** The pages of a walk: each is the next page of its table, and ids rise from page to page. */
  ghost predicate Climbs(tables: seq<Table>, pages: seq<seq<Network>>) {
    |pages| <= |tables| && forall i | 0 <= i < |pages| :: ClimbsAt(tables, pages, i)
  }

  ghost predicate ClimbsAt(tables: seq<Table>, pages: seq<seq<Network>>, i: nat)
    requires i < |pages| <= |tables|
  {
    pages[i] != [] && IsPage(tables[i], BoundAfter(PageBefore(pages, i)), pages[i])
  }

  lemma BelowLast(page: seq<Network>, id: int)
    requires id in IdsOf(page) && forall i, j | 0 <= i < j < |page| :: page[i].id < page[j].id
    ensures id <= BoundAfter(page)
  {
    var n :| n in page && n.id == id;
    var k :| 0 <= k < |page| && page[k] == n;
  }

  /** Everything on the pages is at most the last id of the last page. */
  lemma {:induction false} BelowBound(tables: seq<Table>, pages: seq<seq<Network>>, id: int)
    requires Climbs(tables, pages) && id in IdsIn(pages)
    ensures id <= BoundAfter(PageBefore(pages, |pages|))
  {
    var n := |pages| - 1;
    var page := pages[n];
    assert ClimbsAt(tables, pages, n);
    if id in IdsOf(page) {
      BelowLast(page, id);
    } else {
      ClimbsShorter(tables, pages);
      BelowBound(tables, pages[..n], id);
      assert PageBefore(pages[..n], n) == PageBefore(pages, n);
      assert Listed(tables[n], BoundAfter(PageBefore(pages, n)), page[|page| - 1]);
    }
  }

  lemma ClimbsShorter(tables: seq<Table>, pages: seq<seq<Network>>)
    requires Climbs(tables, pages) && pages != []
    ensures Climbs(tables, pages[..|pages| - 1])
  {
    var earlier := pages[..|pages| - 1];
    forall i | 0 <= i < |earlier| ensures ClimbsAt(tables, earlier, i) {
      assert ClimbsAt(tables, pages, i);
      assert PageBefore(earlier, i) == PageBefore(pages, i);
    }
  }

  lemma NothingSeen(tables: seq<Table>, pages: seq<seq<Network>>, t: Table, networks: seq<Network>)
    requires Climbs(tables, pages) && IsPage(t, BoundAfter(PageBefore(pages, |pages|)), networks)
    ensures Unseen(networks, IdsIn(pages)) == networks
  {
    forall i | 0 <= i < |networks| ensures networks[i].id !in IdsIn(pages) {
      assert Listed(t, BoundAfter(PageBefore(pages, |pages|)), networks[i]);
      if networks[i].id in IdsIn(pages) {
        BelowBound(tables, pages, networks[i].id);
      }
    }
    AllUnseen(networks, IdsIn(pages));
  }

  lemma ClimbOne(header: string, tables: seq<Table>, exchanges: seq<PageExchange>,
                 pages: seq<seq<Network>>, finished: bool, k: nat)
    requires WalkOf(exchanges, pages, finished) && AllRead(exchanges)
    requires Served(header, tables, exchanges) && k < |pages| && Climbs(tables, pages[..k])
    ensures Climbs(tables, pages[..k] + [pages[k]])
  {
    assert PageAt(exchanges, pages, k);
    assert PageBefore(pages[..k], k) == PageBefore(pages, k);
    PageServed(header, tables, exchanges, pages[..k]);
    ClimbsMore(tables, pages[..k], pages[k]);
  }

  lemma {:induction false} WalkClimbs(header: string, tables: seq<Table>, exchanges: seq<PageExchange>,
                                      pages: seq<seq<Network>>, finished: bool, n: nat)
    requires WalkOf(exchanges, pages, finished) && AllRead(exchanges)
    requires Served(header, tables, exchanges) && n <= |pages|
    ensures Climbs(tables, pages[..n])
  {
    if n > 0 {
      WalkClimbs(header, tables, exchanges, pages, finished, n - 1);
      ClimbOne(header, tables, exchanges, pages, finished, n - 1);
      assert pages[..n] == pages[..n - 1] + [pages[n - 1]];
    }
  }

  lemma ClimbsMore(tables: seq<Table>, pages: seq<seq<Network>>, page: seq<Network>)
    requires Climbs(tables, pages) && |pages| < |tables| && page != []
    requires IsPage(tables[|pages|], BoundAfter(PageBefore(pages, |pages|)), page)
    ensures Climbs(tables, pages + [page])
  {
    var more := pages + [page];
    forall i | 0 <= i < |more| ensures ClimbsAt(tables, more, i) {
      assert PageBefore(more, i) == PageBefore(pages, i);
      if i < |pages| {
        assert ClimbsAt(tables, pages, i);
      }
    }
  }

  lemma PageServed(header: string, tables: seq<Table>, exchanges: seq<PageExchange>,
                   earlier: seq<seq<Network>>)
    requires Served(header, tables, exchanges) && AllRead(exchanges) && |earlier| < |exchanges|
    requires Climbs(tables, earlier)
    requires exchanges[|earlier|].command == CommandAfter(PageBefore(earlier, |earlier|))
    ensures var networks := exchanges[|earlier|].networks;
      && IsPage(tables[|earlier|], BoundAfter(PageBefore(earlier, |earlier|)), networks)
      && Unseen(networks, IdsIn(earlier)) == networks
  {
    var k := |earlier|;
    assert ServedAt(header, tables, exchanges, k) && Read(exchanges[k]);
    ReplyIsPage(header, tables[k], PageBefore(earlier, k), exchanges[k]);
    NothingSeen(tables, earlier, tables[k], exchanges[k].networks);
  }

  predicate RisingIds(networks: seq<Network>) {
    forall i, j | 0 <= i < j < |networks| :: networks[i].id < networks[j].id
  }

  lemma RisingInParts(a: seq<Network>, b: seq<Network>, bound: int)
    requires RisingIds(a) && RisingIds(b)
    requires forall i | 0 <= i < |a| :: a[i].id <= bound
    requires forall i | 0 <= i < |b| :: bound < b[i].id
    ensures RisingIds(a + b)
  {
  }

  /** Ids rise strictly over the whole walk. */
  lemma {:induction false} WalkRises(tables: seq<Table>, pages: seq<seq<Network>>)
    requires Climbs(tables, pages)
    ensures RisingIds(Flat(pages))
  {
    if pages != [] {
      var n := |pages| - 1;
      var earlier, bound := pages[..n], BoundAfter(PageBefore(pages, n));
      ClimbsShorter(tables, pages);
      WalkRises(tables, earlier);
      assert ClimbsAt(tables, pages, n);
      IdsOfFlat(earlier);
      forall i | 0 <= i < |Flat(earlier)| ensures Flat(earlier)[i].id <= bound {
        assert Flat(earlier)[i] in Flat(earlier);
        BelowBound(tables, earlier, Flat(earlier)[i].id);
        assert PageBefore(earlier, n) == PageBefore(pages, n);
      }
      forall i | 0 <= i < |pages[n]| ensures bound < pages[n][i].id {
        assert Listed(tables[n], bound, pages[n][i]);
      }
      RisingInParts(Flat(earlier), pages[n], bound);
    }
  }

  /** A network configured from page j to page k, above what came before j and not above the end of k, is
      on one of them. */
  lemma {:induction false} NotMissed(tables: seq<Table>, pages: seq<seq<Network>>, j: nat, k: nat, id: nat)
    requires Climbs(tables, pages) && j <= k < |pages|
    requires forall n | j <= n <= k :: id in tables[n]
    requires BoundAfter(PageBefore(pages, j)) < id <= BoundAfter(pages[k])
    ensures id in IdsIn(pages)
    decreases k
  {
    assert ClimbsAt(tables, pages, k);
    if k > j && id <= BoundAfter(pages[k - 1]) {
      NotMissed(tables, pages, j, k - 1, id);
    } else {
      var n :| n in pages[k] && n.id == id;
      IdsInPage(pages, k, n);
    }
  }

  /** A finished walk yields, in strictly rising order and so once each, every network that was configured
      throughout it (j = 0), and every one configured from some page j on whose id was then still to come.
      It does not matter whether the network a continuation names is removed. */
  lemma FinishedWalkMissesNothing(header: string, tables: seq<Table>, exchanges: seq<PageExchange>,
                                  pages: seq<seq<Network>>, j: nat, id: nat)
    requires WalkOf(exchanges, pages, true) && AllRead(exchanges) && Served(header, tables, exchanges)
    requires j <= |pages| && forall n | j <= n < |tables| :: id in tables[n]
    requires BoundAfter(PageBefore(pages, j)) < id
    ensures RisingIds(Flat(pages)) && id in IdsOf(Flat(pages))
  {
    EndReached(header, tables, exchanges, pages);
    WalkRises(tables, pages);
    ClimbMissesNothing(tables, pages, j, id);
  }

  lemma ClimbMissesNothing(tables: seq<Table>, pages: seq<seq<Network>>, j: nat, id: nat)
    requires Climbs(tables, pages) && |pages| < |tables|
    requires NoneAfter(tables[|pages|], BoundAfter(PageBefore(pages, |pages|)))
    requires j <= |pages| && forall n | j <= n < |tables| :: id in tables[n]
    requires BoundAfter(PageBefore(pages, j)) < id
    ensures id in IdsOf(Flat(pages))
  {
    AboveNothing(tables, pages, j, id);
    NotMissed(tables, pages, j, |pages| - 1, id);
    IdsOfFlat(pages);
  }

  /** A finished walk has climbed to the end of the list as it then was. */
  lemma EndReached(header: string, tables: seq<Table>, exchanges: seq<PageExchange>,
                   pages: seq<seq<Network>>)
    requires WalkOf(exchanges, pages, true) && AllRead(exchanges) && Served(header, tables, exchanges)
    ensures Climbs(tables, pages) && |pages| < |tables|
    ensures NoneAfter(tables[|pages|], BoundAfter(PageBefore(pages, |pages|)))
  {
    WalkClimbs(header, tables, exchanges, pages, true, |pages|);
    assert pages[..|pages|] == pages;
    PageServed(header, tables, exchanges, pages);
  }

  lemma AboveNothing(tables: seq<Table>, pages: seq<seq<Network>>, j: nat, id: nat)
    requires |pages| < |tables| && NoneAfter(tables[|pages|], BoundAfter(PageBefore(pages, |pages|)))
    requires j <= |pages| && id in tables[|pages|] && BoundAfter(PageBefore(pages, j)) < id
    ensures j < |pages| && id <= BoundAfter(pages[|pages| - 1])
  {
  }

  // ----- the walk itself

  /** The pages taken so far, the present one last. */
  function AllPages(earlier: seq<seq<Network>>, page: seq<Network>): seq<seq<Network>> {
    if page == [] then earlier else earlier + [page]
  }

  /** What a generator remembers is the account of its walk: all earlier pages yielded, and the present one
      up to its position. */
  ghost predicate AccountOf(exchanges: seq<PageExchange>, earlier: seq<seq<Network>>, page: seq<Network>,
                            position: nat, finished: bool, yielded: seq<Network>, seen: set<int>) {
    && WalkOf(exchanges, AllPages(earlier, page), finished) && AllRead(exchanges)
    && (page == [] ==> earlier == [])
    && position <= |page|
    && yielded == Flat(earlier) + page[..position]
    && seen == IdsOf(yielded)
    && (finished ==> position == |page|)
  }

  /** At the end of a page everything on the pages has been yielded and is seen. */
  lemma AllYielded(earlier: seq<seq<Network>>, page: seq<Network>)
    ensures Flat(earlier) + page == Flat(AllPages(earlier, page))
    ensures IdsOf(Flat(earlier) + page) == IdsIn(AllPages(earlier, page))
  {
    FlatMore(earlier, page);
    IdsOfFlat(AllPages(earlier, page));
  }

  lemma AccountEnds(exchanges: seq<PageExchange>, earlier: seq<seq<Network>>, page: seq<Network>,
                    yielded: seq<Network>, seen: set<int>, x: PageExchange)
    requires AccountOf(exchanges, earlier, page, |page|, false, yielded, seen) && Read(x)
    requires x.command == CommandAfter(page) && Unseen(x.networks, seen) == []
    ensures AccountOf(exchanges + [x], earlier, page, |page|, true, yielded, seen)
    ensures yielded == Flat(AllPages(earlier, page))
  {
    assert page[..|page|] == page;
    AllYielded(earlier, page);
    WalkEnds(exchanges, AllPages(earlier, page), x);
    AllReadMore(exchanges, x);
  }

  lemma AccountTurns(exchanges: seq<PageExchange>, earlier: seq<seq<Network>>, page: seq<Network>,
                     yielded: seq<Network>, seen: set<int>, x: PageExchange, next: seq<Network>)
    requires AccountOf(exchanges, earlier, page, |page|, false, yielded, seen) && Read(x)
    requires x.command == CommandAfter(page) && next != [] && next == Unseen(x.networks, seen)
    ensures AccountOf(exchanges + [x], AllPages(earlier, page), next, 0, false, yielded, seen)
  {
    assert page[..|page|] == page;
    AllYielded(earlier, page);
    WalkGrows(exchanges, AllPages(earlier, page), x, next);
    AllReadMore(exchanges, x);
    assert yielded + next[..0] == yielded;
  }

  lemma AccountYields(exchanges: seq<PageExchange>, earlier: seq<seq<Network>>, page: seq<Network>,
                      position: nat, yielded: seq<Network>, seen: set<int>)
    requires AccountOf(exchanges, earlier, page, position, false, yielded, seen) && position < |page|
    ensures var n := page[position];
      AccountOf(exchanges, earlier, page, position + 1, false, yielded + [n], seen + {n.id})
  {
    var n := page[position];
    assert page[..position + 1] == page[..position] + [n];
    Associate(Flat(earlier), page[..position], [n]);
    IdsOfAppend(yielded, [n]);
  }

  /** The round trips of a walk were requests of its client, at these places of its log. */
  predicate Placed(exchanges: seq<PageExchange>, places: seq<Place>, log: seq<Action>) {
    && |places| == |exchanges| && InLog(places, log)
    && (forall i | 0 <= i < |places| :: MadeAt(exchanges[i], places[i]))
  }

  predicate MadeAt(x: PageExchange, p: Place) {
    x.command == p.command && x.reply == p.Reply()
  }

  lemma PlacedLonger(exchanges: seq<PageExchange>, places: seq<Place>, log: seq<Action>, longer: seq<Action>)
    requires Placed(exchanges, places, log) && log <= longer
    ensures Placed(exchanges, places, longer)
  {
    InLogLonger(places, log, longer);
  }

  lemma PlacedMore(exchanges: seq<PageExchange>, places: seq<Place>, log: seq<Action>, x: PageExchange, p: Place)
    requires Placed(exchanges, places, log) && log <= p.before && AllWaiting(p.during)
    requires x.command == p.command && x.reply == p.Reply()
    ensures Placed(exchanges + [x], places + [p], p.Run())
  {
    InLogMore(places, log, p);
  }

  /** The generator of iter_networks. Each Next yields one network, and asks for a page when it has none. */
  class NetworkIterator {
    const client: WpaCtrl
    var seen: set<int>
    var page: seq<Network>
    var position: nat
    var finished: bool
    var failed: bool
    ghost var exchanges: seq<PageExchange>
    ghost var earlier: seq<seq<Network>>
    ghost var yielded: seq<Network>
    ghost var places: seq<Place>

    ghost function Pages(): seq<seq<Network>>
      reads this
    {
      AllPages(earlier, page)
    }

    ghost predicate Accounts()
      reads this
    {
      AccountOf(exchanges, earlier, page, position, finished, yielded, seen)
    }

    ghost predicate Valid()
      reads this, client, client.transport
    {
      client.Valid() && Accounts() && Placed(exchanges, places, client.log)
    }

    /** Nothing is sent until the first Next. */
    constructor (client: WpaCtrl)
      requires client.Valid()
      ensures Valid() && this.client == client && yielded == [] && exchanges == []
      ensures !finished && !failed
    {
      this.client := client;
      seen, page, position, finished, failed := {}, [], 0, false, false;
      exchanges, earlier, yielded, places := [], [], [], [];
    }

    method Next() returns (r: Result<Option<Network>>, ghost x: PageExchange, ghost p: Place, ghost went: bool)
      requires Valid()
      modifies this, client`events, client`log, client`state, client.transport
      ensures Valid()
      ensures match r
        case Ok(Some(n)) => yielded == old(yielded) + [n] && !finished
        case _ => yielded == old(yielded) && (finished || failed)
      ensures r == Ok(None) && !old(finished || failed) ==> finished && yielded == Flat(Pages())
      ensures old(finished || failed) ==> r == Ok(None) && finished == old(finished) && failed == old(failed)
      ensures !old(finished || failed) && old(position < |page|) ==> r.Ok? && !failed
      ensures old(finished || failed) || old(position < |page|) ==>
        exchanges == old(exchanges) && places == old(places) && client.log == old(client.log)
        && client.transport.ticks == old(client.transport.ticks)
      ensures r.Err? ==> failed && !finished && exchanges == old(exchanges) && places == old(places)
      ensures !old(finished || failed) && old(position == |page|) && r.Ok? ==>
        && exchanges == old(exchanges) + [x] && places == old(places) + [p]
        && x.command == CommandAfter(old(page)) && x.reply == p.Reply()
      ensures !old(finished || failed) && old(position == |page|) ==>
        RequestRun(ErrorOf(r), old(client.log), old(client.transport.connected), CommandAfter(old(page)), p,
                         went, client.log)
        && InTime(ErrorOf(r), went, old(client.transport.ticks), client.transport.ticks,
                  old(client.transport.clock) + client.timeout)
    {
      x, p, went := PageExchange("", "", []), Place([], "", [], ""), false;
      if finished || failed {
        return Ok(None), x, p, went;
      }
      var fetched: Result<()> := Ok(());
      if position == |page| {
        fetched, x, p, went := FetchPage();
      }
      r := Resume(fetched);
    }

    /** The next network of the page, unless there is none or the page could not be had. */
    method Resume(fetched: Result<()>) returns (r: Result<Option<Network>>)
      requires Valid() && !failed && (finished ==> fetched.Ok? && yielded == Flat(Pages()))
      requires fetched.Ok? && !finished ==> position < |page|
      modifies `failed, `seen, `position, `yielded
      ensures Valid() && ErrorOf(r) == ErrorOf(fetched) && failed == r.Err?
      ensures match r
        case Ok(Some(n)) => yielded == old(yielded) + [n] && !finished
        case Ok(None) => yielded == old(yielded) && finished && yielded == Flat(Pages())
        case Err(_) => yielded == old(yielded) && !finished
    {
      failed := fetched.Err?;
      if fetched.Err? {
        return Err(fetched.error);
      }
      if finished {
        return Ok(None);
      }
      var n := Yield();
      r := Ok(Some(n));
    }

    /** One round trip. */
    method FetchPage()
      returns (r: Result<()>, ghost x: PageExchange, ghost p: Place, ghost went: bool)
      requires Valid() && !finished && !failed && position == |page|
      modifies `page, `position, `finished, `exchanges, `earlier, `places
      modifies client`events, client`log, client`state, client.transport
      ensures Valid() && yielded == old(yielded)
      ensures r.Err? ==> !finished && exchanges == old(exchanges) && places == old(places)
      ensures RequestRun(ErrorOf(r), old(client.log), old(client.transport.connected), CommandAfter(old(page)), p,
                         went, client.log)
      ensures r.Ok? ==>
        && exchanges == old(exchanges) + [x] && places == old(places) + [p]
        && x.command == CommandAfter(old(page)) && x.reply == p.Reply()
      ensures r.Ok? && !finished ==> position < |page|
      ensures finished ==> yielded == Flat(Pages())
      ensures InTime(ErrorOf(r), went, old(client.transport.ticks), client.transport.ticks,
                     old(client.transport.clock) + client.timeout)
    {
      x := PageExchange("", "", []);
      ghost var log := client.log;
      var got;
      got, p, went := Ask();
      if got.Err? {
        return Err(got.error), x, p, went;
      }
      x := Settle(got.value, log, p);
      r := Ok(());
    }

    /** One request; its reply is still to be taken into the account. */
    method Ask() returns (r: Result<string>, ghost p: Place, ghost went: bool)
      requires client.Valid() && Placed(exchanges, places, client.log)
      modifies client`events, client`log, client`state, client.transport
      ensures client.Valid()
      ensures RequestRun(ErrorOf(r), old(client.log), old(client.transport.connected), CommandAfter(page), p, went,
                         client.log)
      ensures if r.Ok? then AllWaiting(p.during) && r.value == p.Reply() else Placed(exchanges, places, client.log)
      ensures InTime(ErrorOf(r), went, old(client.transport.ticks), client.transport.ticks,
                     old(client.transport.clock) + client.timeout)
    {
      ghost var log := client.log;
      r, p, went := client.RequestAt(CommandAfter(page));
      if r.Err? {
        PlacedLonger(exchanges, places, log, client.log);
      }
    }

    /** The reply of the request at p is taken into the account. */
    method Settle(reply: string, ghost log: seq<Action>, ghost p: Place) returns (ghost x: PageExchange)
      requires Accounts() && !finished && position == |page| && Placed(exchanges, places, log)
      requires log <= p.before && AllWaiting(p.during) && p.command == CommandAfter(page) && reply == p.Reply()
      modifies `page, `position, `finished, `exchanges, `earlier, `places
      ensures Accounts() && Placed(exchanges, places, p.Run())
      ensures exchanges == old(exchanges) + [x] && places == old(places) + [p]
      ensures x.command == p.command && x.reply == reply
      ensures !finished ==> position < |page|
      ensures finished ==> yielded == Flat(Pages())
    {
      x := TakePage(reply);
      PlacedMore(old(exchanges), places, log, x, p);
      places := places + [p];
    }

    /** The next page: what its reply lists and was not seen. The walk ends when that is nothing. */
    method TakePage(reply: string) returns (ghost x: PageExchange)
      requires Accounts() && !finished && position == |page|
      modifies `page, `position, `finished, `exchanges, `earlier
      ensures Accounts()
      ensures exchanges == old(exchanges) + [x] && x.command == CommandAfter(old(page)) && x.reply == reply
      ensures !finished ==> position < |page|
      ensures finished ==> yielded == Flat(Pages())
    {
      var networks := ParseNetworks(reply);
      var unseen := Unseen(networks, seen);
      x := PageExchange(CommandAfter(page), reply, networks);
      if unseen == [] {
        Stop(x);
      } else {
        Turn(x, unseen);
      }
    }

    method Stop(ghost x: PageExchange)
      requires Accounts() && !finished && position == |page| && Read(x)
      requires x.command == CommandAfter(page) && Unseen(x.networks, seen) == []
      modifies `finished, `exchanges
      ensures Accounts() && finished && exchanges == old(exchanges) + [x] && yielded == Flat(Pages())
    {
      AccountEnds(exchanges, earlier, page, yielded, seen, x);
      exchanges, finished := exchanges + [x], true;
    }

    method Turn(ghost x: PageExchange, next: seq<Network>)
      requires Accounts() && !finished && position == |page| && Read(x)
      requires x.command == CommandAfter(page) && next != [] && next == Unseen(x.networks, seen)
      modifies `page, `position, `exchanges, `earlier
      ensures Accounts() && exchanges == old(exchanges) + [x] && page == next && position == 0
    {
      AccountTurns(exchanges, earlier, page, yielded, seen, x, next);
      exchanges, earlier := exchanges + [x], Pages();
      page, position := next, 0;
    }

    method Yield() returns (n: Network)
      requires Valid() && position < |page|
      modifies `seen, `position, `yielded
      ensures Valid() && yielded == old(yielded) + [n]
    {
      AccountYields(exchanges, earlier, page, position, yielded, seen);
      n := page[position];
      seen := seen + {n.id};
      yielded := yielded + [n];
      position := position + 1;
    }
  }
}
