/** Cursor polling of an event source: each poll hands over what is newer than the cursor
    and moves the cursor to the newest item seen. */
module Aggregator {
  import opened Prelude

  /** A source item; the stamp is absent when the row has none (an unfinished job). */
  datatype Item = Item(id: string, stamp: Option<int>)

  predicate After(it: Item, t: int) {
    it.stamp.Some? && it.stamp.value > t
  }

  /** The items later than `cursor`, in order. */
  function Fresh(items: seq<Item>, cursor: int): (r: seq<Item>) {
    if items == [] then []
    else
      var init, last := Fresh(items[..|items| - 1], cursor), items[|items| - 1];
      if After(last, cursor) then init + [last] else init
  }

  /** The latest stamp, but no earlier than `cursor`. */
  function Newest(items: seq<Item>, cursor: int): (r: int) {
    if items == [] then cursor
    else
      var init, last := Newest(items[..|items| - 1], cursor), items[|items| - 1];
      if After(last, init) then last.stamp.value else init
  }

  /** The loop all three polls share. */
  method PollLoop(items: seq<Item>, cursor: int) returns (newest: int, handed: seq<Item>)
    ensures newest == Newest(items, cursor) && handed == Fresh(items, cursor)
  {
    newest, handed := cursor, [];
    for i := 0 to |items|
      invariant newest == Newest(items[..i], cursor) && handed == Fresh(items[..i], cursor)
    {
      var it := items[i];
      NewestIsBound(items[..i], cursor, it);
      assert items[..i + 1][..i] == items[..i];
      if it.stamp.None? || it.stamp.value <= cursor {
        continue;
      }
      if it.stamp.value > newest {
        newest := it.stamp.value;
      }
      handed := handed + [it];
    }
    assert items[..|items|] == items;
  }

  lemma {:induction false} NewestIsBound(items: seq<Item>, cursor: int, it: Item)
    ensures Newest(items, cursor) >= cursor
    ensures it in items ==> !After(it, Newest(items, cursor))
    ensures Newest(items, cursor) == cursor || exists k :: k in items && k.stamp == Some(Newest(items, cursor))
  {
    if items != [] {
      NewestIsBound(items[..|items| - 1], cursor, it);
      assert items == items[..|items| - 1] + [items[|items| - 1]];
    }
  }

  lemma {:induction false} FreshElements(items: seq<Item>, cursor: int, it: Item)
    ensures it in Fresh(items, cursor) <==> it in items && After(it, cursor)
    ensures Distinct(items) ==> Distinct(Fresh(items, cursor))
  {
    if items != [] {
      var init, last := items[..|items| - 1], items[|items| - 1];
      assert items == init + [last];
      FreshElements(init, cursor, it);
      FreshElements(init, cursor, last);
    }
  }

  /** The items handed over are exactly those later than the cursor, in the order listed. */
  lemma {:induction false} FreshInOrder(items: seq<Item>, cursor: int, late: Item -> bool)
    requires forall it :: late(it) <==> it.stamp.Some? && it.stamp.value > cursor
    ensures Sifts(items, Fresh(items, cursor), late)
  {
    if items == [] {
      SiftsNothing(late);
    } else {
      var init, last := items[..|items| - 1], items[|items| - 1];
      assert items == init + [last];
      FreshInOrder(init, cursor, late);
      SiftsOne(init, Fresh(init, cursor), late, last, items, Fresh(items, cursor));
    }
  }

  // ----- any sequence of polls -----

  /** One source as the process sees it: its cursor and all it handed to RecordEvent. */
  datatype Feed = Feed(cursor: int, handed: seq<Item>)

  /** `None` is a poll that failed. */
  function Poll(f: Feed, response: Option<seq<Item>>): (r: Feed) {
    match response
    case None => f
    case Some(items) => Feed(Newest(items, f.cursor), f.handed + Fresh(items, f.cursor))
  }

  function Polls(f: Feed, responses: seq<Option<seq<Item>>>): (r: Feed) {
    if responses == [] then f else Poll(Polls(f, responses[..|responses| - 1]), responses[|responses| - 1])
  }

  /** Whatever the responses hold: the cursor never goes back, everything handed over lies
      between the first cursor and the current one, and nothing is handed over twice as
      long as no single response lists an item twice. */
  lemma {:induction false} HandedOnce(start: int, responses: seq<Option<seq<Item>>>)
    requires forall i | 0 <= i < |responses| && responses[i].Some? :: Distinct(responses[i].value)
    ensures var f := Polls(Feed(start, []), responses);
            && Accounted(start, f)
            && (responses != [] ==> f.cursor >= Polls(Feed(start, []), responses[..|responses| - 1]).cursor)
  {
    if responses != [] {
      var init, last := responses[..|responses| - 1], responses[|responses| - 1];
      HandedOnce(start, init);
      if last.Some? {
        PollHandsOnce(start, Polls(Feed(start, []), init), last.value);
      }
    }
  }

  /** Everything handed over lies after the start and not after the cursor, and only once. */
  ghost predicate Accounted(start: int, f: Feed) {
    f.cursor >= start && Distinct(f.handed) && forall it | it in f.handed :: After(it, start) && !After(it, f.cursor)
  }

  /** One successful poll. */
  lemma PollHandsOnce(start: int, f: Feed, items: seq<Item>)
    requires Accounted(start, f) && Distinct(items)
    ensures Accounted(start, Poll(f, Some(items))) && Poll(f, Some(items)).cursor >= f.cursor
  {
    var later, newest := Fresh(items, f.cursor), Newest(items, f.cursor);
    NewestIsBound(items, f.cursor, Item("", None));
    FreshElements(items, f.cursor, Item("", None));
    forall it | it in later ensures After(it, f.cursor) && !After(it, newest) {
      FreshElements(items, f.cursor, it);
      NewestIsBound(items, f.cursor, it);
    }
    DistinctConcat(f.handed, later);
  }

  lemma DistinctConcat(a: seq<Item>, b: seq<Item>)
    requires Distinct(a) && Distinct(b) && forall it | it in b :: it !in a
    ensures Distinct(a + b)
  {
    forall i, j | 0 <= i < j < |a + b| ensures (a + b)[i] != (a + b)[j] {
      if i < |a| <= j {
        assert (a + b)[j] in b;
      }
    }
  }

  /** An item the cursor has passed without its being handed over is lost for good. That is
      what happens to whatever a limited query leaves out. */
  lemma {:induction false} PassedIsLost(f: Feed, responses: seq<Option<seq<Item>>>, it: Item)
    requires !After(it, f.cursor) && it !in f.handed
    ensures !After(it, Polls(f, responses).cursor) && it !in Polls(f, responses).handed
  {
    if responses != [] {
      var init, last := responses[..|responses| - 1], responses[|responses| - 1];
      PassedIsLost(f, init, it);
      if last.Some? {
        NewestIsBound(last.value, Polls(f, init).cursor, it);
        FreshElements(last.value, Polls(f, init).cursor, it);
      }
    }
  }

  // ----- polls that return all there is to see -----

  datatype Happening = Appear(item: Item) | Polled | PollFailed

  datatype World = World(visible: seq<Item>, feed: Feed)

  function Happen(w: World, h: Happening): (r: World) {
    match h
    case Appear(it) => w.(visible := w.visible + [it])
    case Polled => w.(feed := Poll(w.feed, Some(w.visible)))
    case PollFailed => w.(feed := Poll(w.feed, None))
  }

  function History(start: int, hs: seq<Happening>): (r: World) {
    if hs == [] then World([], Feed(start, [])) else Happen(History(start, hs[..|hs| - 1]), hs[|hs| - 1])
  }

  /** Item `k` of the history appears for the only time. */
  ghost predicate AppearsOnce(hs: seq<Happening>, k: nat) {
    && k < |hs| && hs[k].Appear?
    && forall j | 0 <= j < |hs| && j != k :: hs[j] != hs[k]
  }

  ghost predicate PolledSince(hs: seq<Happening>, k: nat) {
    exists m :: k < m < |hs| && hs[m].Polled?
  }

  /** The fate of an item, exactly: once a poll has succeeded after it appeared, it has been
      handed over if and only if it was later than the cursor at the moment it appeared. */
  lemma {:induction false} HandedExactly(start: int, hs: seq<Happening>, k: nat)
    requires AppearsOnce(hs, k)
    ensures var w, before, it := History(start, hs), History(start, hs[..k]), hs[k].item;
            && it in w.visible
            && w.feed.cursor >= before.feed.cursor
            && (it in w.feed.handed <==> PolledSince(hs, k) && After(it, before.feed.cursor))
            && (PolledSince(hs, k) ==> !After(it, w.feed.cursor))
            && (!PolledSince(hs, k) ==> w.feed.cursor == before.feed.cursor)
    decreases |hs|
  {
    var init, last := hs[..|hs| - 1], hs[|hs| - 1];
    var it := hs[k].item;
    if k == |init| {
      assert hs[..k] == init;
      NotYetSeen(start, init, it);
    } else {
      assert init[..k] == hs[..k] && init[k] == hs[k];
      HandedExactly(start, init, k);
      var w := History(start, init);
      assert PolledSince(hs, k) <==> PolledSince(init, k) || last.Polled?;
      if last.Polled? {
        FreshElements(w.visible, w.feed.cursor, it);
        NewestIsBound(w.visible, w.feed.cursor, it);
        assert hs[|init|].Polled?;
      }
    }
  }

  lemma {:induction false} NotYetSeen(start: int, hs: seq<Happening>, it: Item)
    requires forall j | 0 <= j < |hs| :: hs[j] != Appear(it)
    ensures it !in History(start, hs).visible && it !in History(start, hs).feed.handed
  {
    if hs != [] {
      var w := History(start, hs[..|hs| - 1]);
      NotYetSeen(start, hs[..|hs| - 1], it);
      FreshElements(w.visible, w.feed.cursor, it);
    }
  }

  /** Item `k` appears later than everything visible so far. */
  ghost predicate InOrder(start: int, hs: seq<Happening>, k: nat)
    requires k < |hs|
  {
    hs[k].Appear? && After(hs[k].item, start) ==>
      forall v | v in History(start, hs[..k]).visible && v.stamp.Some? :: After(hs[k].item, v.stamp.value)
  }

  /** If items become visible in stamp order then, however many polls failed in between,
      after a successful poll exactly the visible items later than the first cursor have
      been handed over. */
  lemma CompleteWhenInOrder(start: int, hs: seq<Happening>)
    requires hs != [] && hs[|hs| - 1].Polled?
    requires forall k | 0 <= k < |hs| :: InOrder(start, hs, k)
    ensures forall it :: it in History(start, hs).feed.handed <==> it in History(start, hs).visible && After(it, start)
  {
    var init := hs[..|hs| - 1];
    assert forall k | 0 <= k < |init| :: init[..k] == hs[..k] && init[k] == hs[k];
    assert forall k | 0 <= k < |init| :: InOrder(start, hs, k) ==> InOrder(start, init, k);
    CaughtUp(start, init);
    var w := History(start, init);
    forall it: Item ensures it in History(start, hs).feed.handed <==> it in w.visible && After(it, start) {
      FreshElements(w.visible, w.feed.cursor, it);
    }
  }

  lemma {:induction false} CaughtUp(start: int, hs: seq<Happening>)
    requires forall k | 0 <= k < |hs| :: InOrder(start, hs, k)
    ensures var w := History(start, hs);
            && w.feed.cursor >= start
            && (w.feed.cursor == start || exists v :: v in w.visible && v.stamp == Some(w.feed.cursor))
            && forall it :: it in w.feed.handed <==> it in w.visible && After(it, start) && !After(it, w.feed.cursor)
  {
    if hs != [] {
      var init, last := hs[..|hs| - 1], hs[|hs| - 1];
      assert forall k | 0 <= k < |init| :: init[..k] == hs[..k] && init[k] == hs[k];
      assert forall k | 0 <= k < |init| :: InOrder(start, hs, k) ==> InOrder(start, init, k);
      CaughtUp(start, init);
      var w := History(start, init);
      var w' := History(start, hs);
      assert InOrder(start, hs, |init|) && hs[..|init|] == init;
      if last.Polled? {
        NewestIsBound(w.visible, w.feed.cursor, Item("", None));
      }
      forall it: Item ensures it in w'.feed.handed <==> it in w'.visible && After(it, start) && !After(it, w'.feed.cursor) {
        FreshElements(w.visible, w.feed.cursor, it);
        NewestIsBound(w.visible, w.feed.cursor, it);
      }
    }
  }

  lemma {:induction false} Seen(start: int, hs: seq<Happening>, j: nat)
    requires j < |hs| && hs[j].Appear?
    ensures hs[j].item in History(start, hs).visible
  {
    if j < |hs| - 1 {
      Seen(start, hs[..|hs| - 1], j);
    }
  }

  /** Once an item was visible to a successful poll, the cursor is never before it again. */
  lemma {:induction false} Passed(start: int, hs: seq<Happening>, j: nat, m: nat)
    requires j < m < |hs| && hs[j].Appear? && hs[m].Polled?
    ensures !After(hs[j].item, History(start, hs).feed.cursor)
  {
    var init := hs[..|hs| - 1];
    var w := History(start, init);
    if m == |init| {
      Seen(start, init, j);
    } else {
      Passed(start, init, j, m);
    }
    NewestIsBound(w.visible, w.feed.cursor, hs[j].item);
  }

  /** In any history: an item that appears after another with an equal or later stamp was
      visible to a successful poll is never handed over. */
  lemma TiesAreLost(start: int, hs: seq<Happening>, j: nat, m: nat, k: nat)
    requires j < m < k && AppearsOnce(hs, k) && hs[j].Appear? && hs[m].Polled?
    requires hs[j].item.stamp.Some? && !After(hs[k].item, hs[j].item.stamp.value)
    ensures hs[k].item !in History(start, hs).feed.handed
  {
    Passed(start, hs[..k], j, m);
    HandedExactly(start, hs, k);
  }

  // ----- the aggregator as it runs -----

  datatype Source = Alertmanager | Jobs | Audit

  class Sources {
    var cursors: map<Source, int>
    var handed: map<Source, seq<Item>>

    ghost predicate Valid()
      reads this
    {
      forall s: Source :: s in cursors && s in handed
    }

    ghost function FeedOf(s: Source): (f: Feed)
      requires Valid()
      reads this
    {
      Feed(cursors[s], handed[s])
    }

    constructor (now: int)
      ensures Valid() && forall s :: FeedOf(s) == Feed(now, [])
    {
      cursors := map[Alertmanager := now, Jobs := now, Audit := now];
      handed := map[Alertmanager := [], Jobs := [], Audit := []];
      new;
      forall s: Source ensures s in cursors && s in handed && cursors[s] == now && handed[s] == [] {
        match s { case Alertmanager => case Jobs => case Audit => }
      }
    }

    /** One source's poll; a failed one leaves the cursor where it was. */
    method PollSource(s: Source, response: Option<seq<Item>>)
      requires Valid()
      modifies this
      ensures Valid() && FeedOf(s) == Poll(old(FeedOf(s)), response)
      ensures forall other | other != s :: FeedOf(other) == old(FeedOf(other))
    {
      if response.None? {
        return;
      }
      var newest, items := PollLoop(response.value, cursors[s]);
      handed := handed[s := handed[s] + items];
      cursors := cursors[s := newest];
    }

    /** tick: a source that fails does not silence the others. */
    method Tick(alertmanagerConfigured: bool, responses: Source -> Option<seq<Item>>)
      requires Valid()
      modifies this
      ensures Valid()
      ensures forall s :: FeedOf(s) == if s.Alertmanager? && !alertmanagerConfigured then old(FeedOf(s))
                                       else Poll(old(FeedOf(s)), responses(s))
    {
      if alertmanagerConfigured {
        PollSource(Alertmanager, responses(Alertmanager));
      }
      PollSource(Jobs, responses(Jobs));
      PollSource(Audit, responses(Audit));
    }
  }
}
