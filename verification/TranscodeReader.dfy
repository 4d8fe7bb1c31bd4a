/**
 * Filtered transcode readers and the cache of target sequence headers
 * (core/transcode_manager.go).
 *
 * A reader forwards the shared output from its own floors on. For an AAC target it makes sure
 * that audio never reaches the subscriber behind the wrong configuration record.
 */
module TranscodeReader {
  import opened Options
  import opened PcmPipeline

  /**
   * One shared output. `Config` is a generated configuration record and carries no span;
   * `Header` is a configuration record of the source that is passed through as media.
   */
  datatype Content = Config | Header | Audio | Video

  datatype Output = Output(id: nat, content: Content, span: Span, epoch: nat) {
    predicate IsHeader() { content.Config? || content.Header? }
  }

  // ---------------------------------------------------------------- the header cache

  const CACHE_LIMIT := 8

  /** The newest header cached for an epoch. */
  function LastFor(headers: seq<Output>, epoch: nat): Option<Output> {
    if headers == [] then None
    else if headers[|headers| - 1].epoch == epoch then Some(headers[|headers| - 1])
    else LastFor(headers[..|headers| - 1], epoch)
  }

  /** The last entry of an epoch, or -1. */
  function Position(entries: seq<Output>, epoch: nat): (i: int)
    ensures -1 <= i < |entries| && (i >= 0 ==> entries[i].epoch == epoch)
    ensures forall k :: 0 <= k < |entries| && k > i ==> entries[k].epoch != epoch
  {
    if entries == [] then -1
    else if entries[|entries| - 1].epoch == epoch then |entries| - 1
    else Position(entries[..|entries| - 1], epoch)
  }

  function FoundIn(entries: seq<Output>, epoch: nat): Option<Output> {
    var i := Position(entries, epoch);
    if i >= 0 then Some(entries[i]) else None
  }

  /** A header replaces the one of its epoch in place; else it is appended and the oldest leaves. */
  function Stored(entries: seq<Output>, h: Output): seq<Output> {
    var i := Position(entries, h.epoch);
    if i >= 0 then entries[i := h]
    else
      var all := entries + [h];
      if |all| > CACHE_LIMIT then all[|all| - CACHE_LIMIT..] else all
  }

  /** The cache after everything that was ever stored. */
  function CacheAfter(history: seq<Output>): seq<Output> {
    if history == [] then [] else Stored(CacheAfter(history[..|history| - 1]), history[|history| - 1])
  }

  ghost predicate ConfigsOnly(s: seq<Output>) { forall i :: 0 <= i < |s| ==> s[i].content.Config? }

  /**
   * The entries against everything that was ever cached: configuration records only, one per
   * epoch, each the newest of its epoch.
   */
  ghost predicate CacheOk(entries: seq<Output>, history: seq<Output>) {
    && |entries| <= CACHE_LIMIT && ConfigsOnly(entries)
    && (forall i, j :: 0 <= i < j < |entries| ==> entries[i].epoch != entries[j].epoch)
    && (forall i :: 0 <= i < |entries| ==> LastFor(history, entries[i].epoch) == Some(entries[i]))
  }

  lemma LastForSnoc(history: seq<Output>, h: Output, epoch: nat)
    ensures LastFor(history + [h], epoch) == if h.epoch == epoch then Some(h) else LastFor(history, epoch)
  {
    assert (history + [h])[..|history|] == history;
  }

  lemma ReplaceOk(entries: seq<Output>, history: seq<Output>, i: nat, h: Output)
    requires CacheOk(entries, history) && i < |entries| && entries[i].epoch == h.epoch && h.content.Config?
    ensures CacheOk(entries[i := h], history + [h])
  {
    var next := entries[i := h];
    forall k | 0 <= k < |next| ensures LastFor(history + [h], next[k].epoch) == Some(next[k]) {
      LastForSnoc(history, h, next[k].epoch);
    }
  }

  lemma AppendOk(entries: seq<Output>, history: seq<Output>, h: Output, drop: nat)
    requires CacheOk(entries, history) && (forall i :: 0 <= i < |entries| ==> entries[i].epoch != h.epoch)
    requires drop <= |entries| && |entries| + 1 - drop <= CACHE_LIMIT && h.content.Config?
    ensures CacheOk((entries + [h])[drop..], history + [h])
  {
    var all := entries + [h];
    forall k | 0 <= k < |all| ensures LastFor(history + [h], all[k].epoch) == Some(all[k]) {
      LastForSnoc(history, h, all[k].epoch);
    }
  }

  /** At most eight records, one per epoch, each the newest ever stored for its epoch. */
  lemma {:induction false} CacheAfterIsOk(history: seq<Output>)
    requires ConfigsOnly(history)
    ensures CacheOk(CacheAfter(history), history)
  {
    if history != [] {
      var m, h := history[..|history| - 1], history[|history| - 1];
      assert history == m + [h];
      CacheAfterIsOk(m);
      var entries := CacheAfter(m);
      var i := Position(entries, h.epoch);
      if i >= 0 {
        ReplaceOk(entries, m, i, h);
      } else {
        var drop := if |entries| + 1 > CACHE_LIMIT then |entries| + 1 - CACHE_LIMIT else 0;
        AppendOk(entries, m, h, drop);
        assert (entries + [h])[0..] == entries + [h];
      }
    }
  }

  lemma CacheSnoc(history: seq<Output>, h: Output)
    ensures CacheAfter(history + [h]) == Stored(CacheAfter(history), h)
  {
    assert (history + [h])[..|history|] == history;
  }

  /** The search from the end finds the position. */
  lemma PositionIs(entries: seq<Output>, epoch: nat, i: int)
    requires -1 <= i < |entries| && (i >= 0 ==> entries[i].epoch == epoch)
    requires forall k :: 0 <= k < |entries| && k > i ==> entries[k].epoch != epoch
    ensures Position(entries, epoch) == i
  {
  }

  class HeaderCache {
    var entries: seq<Output>
    ghost var history: seq<Output>

    ghost predicate Valid()
      reads this
    {
      ConfigsOnly(history) && entries == CacheAfter(history)
    }

    constructor ()
      ensures Valid() && history == []
    {
      entries, history := [], [];
    }

    /** Stores a configuration record and ignores everything else. */
    method Store(h: Output)
      requires Valid()
      modifies this
      ensures Valid() && history == if h.content.Config? then old(history) + [h] else old(history)
    {
      if !h.content.Config? {
        return;
      }
      CacheSnoc(history, h);
      entries := Placed(entries, h);
      history := history + [h];
    }

    /** In the place of the header of its epoch, or at the end. */
    static method Placed(entries: seq<Output>, h: Output) returns (r: seq<Output>)
      ensures r == Stored(entries, h)
    {
      var i := |entries|;
      while i > 0
        invariant 0 <= i <= |entries|
        invariant forall k :: i <= k < |entries| ==> entries[k].epoch != h.epoch
      {
        i := i - 1;
        if entries[i].epoch == h.epoch {
          PositionIs(entries, h.epoch, i);
          return entries[i := h];
        }
      }
      PositionIs(entries, h.epoch, -1);
      r := entries + [h];
      if |r| > CACHE_LIMIT {
        r := r[|r| - CACHE_LIMIT..];
      }
    }

    /** A found header is the newest record ever stored for its epoch. */
    method Lookup(epoch: nat) returns (h: Option<Output>)
      requires Valid()
      ensures h == FoundIn(entries, epoch)
      ensures h.Some? ==> h.value.content.Config? && h.value.epoch == epoch && h == LastFor(history, epoch)
      ensures h.None? <==> forall i :: 0 <= i < |entries| ==> entries[i].epoch != epoch
    {
      CacheAfterIsOk(history);
      var i := |entries|;
      while i > 0
        invariant 0 <= i <= |entries|
        invariant forall k :: i <= k < |entries| ==> entries[k].epoch != epoch
      {
        i := i - 1;
        if entries[i].epoch == epoch {
          PositionIs(entries, epoch, i);
          return Some(entries[i]);
        }
      }
      PositionIs(entries, epoch, -1);
      return None;
    }
  }

  // ---------------------------------------------------------------- the filter

  /** A shared output with what the header cache answers for its epoch at that moment. */
  datatype Item = Item(output: Output, cached: Option<Output>)

  /** An answer is a record of the epoch asked for. */
  ghost predicate ItemOk(x: Item) {
    x.cached.Some? ==> x.cached.value.content.Config? && x.cached.value.epoch == x.output.epoch
  }

  function Configs(s: seq<Output>): (r: seq<Output>)
    ensures ConfigsOnly(r)
  {
    if s == [] then [] else Configs(s[..|s| - 1]) + if s[|s| - 1].content.Config? then [s[|s| - 1]] else []
  }

  /** The cache's history once the producer stored the first k batches. */
  function HistoryAfter(history: seq<Output>, stores: seq<seq<Output>>, k: nat): seq<Output>
    requires k <= |stores|
  {
    if k == 0 then history else HistoryAfter(history, stores, k - 1) + Configs(stores[k - 1])
  }

  /**
   * What a reader meets: the producer runs on, and `stores[k]` is what it stores in the header
   * cache between the reader's turns k - 1 and k.
   */
  function Items(outputs: seq<Output>, history: seq<Output>, stores: seq<seq<Output>>): (items: seq<Item>)
    requires |stores| == |outputs|
    ensures |items| == |outputs|
  {
    seq(|outputs|, k requires 0 <= k < |outputs| => ItemAt(outputs, history, stores, k))
  }

  function ItemAt(outputs: seq<Output>, history: seq<Output>, stores: seq<seq<Output>>, k: nat): Item
    requires |stores| == |outputs| && k < |outputs|
  {
    Item(outputs[k], FoundIn(CacheAfter(HistoryAfter(history, stores, k + 1)), outputs[k].epoch))
  }

  lemma ItemsAt(outputs: seq<Output>, history: seq<Output>, stores: seq<seq<Output>>, k: nat)
    requires |stores| == |outputs| && k < |outputs|
    ensures Items(outputs, history, stores)[k] == ItemAt(outputs, history, stores, k)
  {
  }

  lemma {:induction false} HistoryIsConfigs(history: seq<Output>, stores: seq<seq<Output>>, k: nat)
    requires ConfigsOnly(history) && k <= |stores|
    ensures ConfigsOnly(HistoryAfter(history, stores, k))
  {
    if k > 0 {
      HistoryIsConfigs(history, stores, k - 1);
    }
  }

  /** Whatever the producer stores meanwhile, the cache answers with records of the epoch asked for. */
  lemma ItemsAreOk(outputs: seq<Output>, history: seq<Output>, stores: seq<seq<Output>>)
    requires |stores| == |outputs| && ConfigsOnly(history)
    ensures forall k :: 0 <= k < |outputs| ==> ItemOk(Items(outputs, history, stores)[k])
  {
    var items := Items(outputs, history, stores);
    forall k | 0 <= k < |outputs| ensures ItemOk(items[k]) {
      HistoryIsConfigs(history, stores, k + 1);
      CacheAfterIsOk(HistoryAfter(history, stores, k + 1));
      ItemsAt(outputs, history, stores, k);
    }
  }

  /** One delivered frame: the shared output it comes from, or an injected record. */
  datatype Delivery = Passed(output: Output, from: nat) | Injected(output: Output)

  datatype Floors = Floors(source: int, epoch: nat, aac: bool)

  /** The output is at or above the reader's floors. */
  predicate AboveFloors(o: Output, f: Floors) {
    match o.content
    case Config => o.epoch >= f.epoch
    case Video => o.span.begin >= f.source
    case _ => o.span.begin >= f.source && o.epoch >= f.epoch
  }

  /** Media without a valid span ends the reader. */
  predicate Ends(o: Output) { !o.content.Config? && !o.span.Valid() }

  /** The epoch of the last configuration record delivered, 0 before the first. */
  function LastConfig(d: seq<Delivery>): nat {
    if d == [] then 0
    else if d[|d| - 1].output.IsHeader() then d[|d| - 1].output.epoch
    else LastConfig(d[..|d| - 1])
  }

  lemma LastConfigSnoc(d: seq<Delivery>, x: Delivery)
    ensures LastConfig(d + [x]) == if x.output.IsHeader() then x.output.epoch else LastConfig(d)
  {
    assert (d + [x])[..|d|] == d;
  }

  /** Passed outputs come from the shared output, in order, and respect the floors. */
  ghost predicate Subsequence(d: seq<Delivery>, items: seq<Item>, f: Floors, read: nat) {
    && (forall i :: 0 <= i < |d| && d[i].Passed? ==>
          d[i].from < read <= |items| && d[i].output == items[d[i].from].output && AboveFloors(d[i].output, f))
    && (forall i, j :: 0 <= i < j < |d| && d[i].Passed? && d[j].Passed? ==> d[i].from < d[j].from)
    && (forall i :: 0 <= i < |d| && d[i].Injected? ==> d[i].output.content.Config? && d[i].output.epoch >= f.epoch)
  }

  /** For an AAC target, audio follows a configuration record of its own epoch. */
  ghost predicate Configured(d: seq<Delivery>, f: Floors) {
    f.aac ==> forall i :: 0 <= i < |d| && d[i].output.content.Audio? ==> LastConfig(d[..i]) == d[i].output.epoch
  }

  ghost predicate PassedAt(d: seq<Delivery>, k: nat) { exists i :: 0 <= i < |d| && d[i].Passed? && d[i].from == k }

  /** An output is withheld only below the floors, or as AAC audio whose record is gone. */
  ghost predicate NothingElseWithheld(d: seq<Delivery>, items: seq<Item>, f: Floors, read: nat) {
    forall k :: 0 <= k < read <= |items| ==>
      || PassedAt(d, k)
      || !AboveFloors(items[k].output, f)
      || (f.aac && items[k].output.content.Audio? && items[k].cached.None?)
  }

  ghost predicate FilterOk(d: seq<Delivery>, items: seq<Item>, f: Floors, read: nat) {
    && read <= |items|
    && Subsequence(d, items, f, read)
    && Configured(d, f)
    && NothingElseWithheld(d, items, f, read)
  }

  /** The next item adds nothing. */
  lemma Skipped(d: seq<Delivery>, items: seq<Item>, f: Floors, read: nat)
    requires FilterOk(d, items, f, read) && read < |items|
    requires !AboveFloors(items[read].output, f) || (f.aac && items[read].output.content.Audio? && items[read].cached.None?)
    ensures FilterOk(d, items, f, read + 1)
  {
  }

  lemma Inject(d: seq<Delivery>, items: seq<Item>, f: Floors, read: nat, h: Output)
    requires FilterOk(d, items, f, read) && h.content.Config? && h.epoch >= f.epoch
    ensures FilterOk(d + [Injected(h)], items, f, read) && LastConfig(d + [Injected(h)]) == h.epoch
  {
    LastConfigSnoc(d, Injected(h));
    PassConfigured(d, f, Injected(h));
    forall k | 0 <= k < read && PassedAt(d, k) ensures PassedAt(d + [Injected(h)], k) {
      PassedStays(d, Injected(h), k);
    }
  }

  lemma PassSubsequence(d: seq<Delivery>, items: seq<Item>, f: Floors, read: nat)
    requires Subsequence(d, items, f, read) && read < |items| && AboveFloors(items[read].output, f)
    ensures Subsequence(d + [Passed(items[read].output, read)], items, f, read + 1)
  {
  }

  lemma PassConfigured(d: seq<Delivery>, f: Floors, x: Delivery)
    requires Configured(d, f) && (f.aac && x.output.content.Audio? ==> LastConfig(d) == x.output.epoch)
    ensures Configured(d + [x], f)
  {
    var e := d + [x];
    forall i | 0 <= i < |e| && e[i].output.content.Audio? && f.aac ensures LastConfig(e[..i]) == e[i].output.epoch {
      if i < |d| {
        assert e[i] == d[i] && e[..i] == d[..i];
      } else {
        assert e[..i] == d;
      }
    }
  }

  lemma PassedStays(d: seq<Delivery>, x: Delivery, k: nat)
    requires PassedAt(d, k)
    ensures PassedAt(d + [x], k)
  {
    var i :| 0 <= i < |d| && d[i].Passed? && d[i].from == k;
    assert (d + [x])[i] == d[i];
  }

  lemma PassWithheld(d: seq<Delivery>, items: seq<Item>, f: Floors, read: nat)
    requires NothingElseWithheld(d, items, f, read) && read < |items|
    ensures NothingElseWithheld(d + [Passed(items[read].output, read)], items, f, read + 1)
  {
    var x := Passed(items[read].output, read);
    assert (d + [x])[|d|] == x;
    assert PassedAt(d + [x], read);
    forall k | 0 <= k < read && PassedAt(d, k) ensures PassedAt(d + [x], k) {
      PassedStays(d, x, k);
    }
  }

  lemma Pass(d: seq<Delivery>, items: seq<Item>, f: Floors, read: nat)
    requires FilterOk(d, items, f, read) && read < |items| && AboveFloors(items[read].output, f)
    requires f.aac && items[read].output.content.Audio? ==> LastConfig(d) == items[read].output.epoch
    ensures FilterOk(d + [Passed(items[read].output, read)], items, f, read + 1)
  {
    PassSubsequence(d, items, f, read);
    PassConfigured(d, f, Passed(items[read].output, read));
    PassWithheld(d, items, f, read);
  }

  /** What one more item adds to what was delivered. */
  function Deliver(d: seq<Delivery>, x: Item, k: nat, f: Floors): seq<Delivery> {
    var o := x.output;
    if !AboveFloors(o, f) then d
    else if f.aac && o.content.Audio? && LastConfig(d) != o.epoch then
      if x.cached.None? || x.cached.value.epoch < f.epoch then d
      else d + [Injected(x.cached.value)] + [Passed(o, k)]
    else d + [Passed(o, k)]
  }

  function Filtered(items: seq<Item>, f: Floors): seq<Delivery> {
    if items == [] then []
    else Deliver(Filtered(items[..|items| - 1], f), items[|items| - 1], |items| - 1, f)
  }

  lemma DeliverOk(d: seq<Delivery>, items: seq<Item>, f: Floors, read: nat)
    requires FilterOk(d, items, f, read) && read < |items| && ItemOk(items[read])
    ensures FilterOk(Deliver(d, items[read], read, f), items, f, read + 1)
  {
    var x := items[read];
    if AboveFloors(x.output, f) && f.aac && x.output.content.Audio? && LastConfig(d) != x.output.epoch && x.cached.Some? {
      Inject(d, items, f, read, x.cached.value);
      Pass(d + [Injected(x.cached.value)], items, f, read);
    } else if AboveFloors(x.output, f) && !(f.aac && x.output.content.Audio? && LastConfig(d) != x.output.epoch) {
      Pass(d, items, f, read);
    } else {
      Skipped(d, items, f, read);
    }
  }

  /** What a reader delivers is a subsequence above its floors, configured, and complete. */
  lemma {:induction false} FilteredIsOk(items: seq<Item>, f: Floors, read: nat)
    requires (forall i :: 0 <= i < |items| ==> ItemOk(items[i])) && read <= |items|
    ensures FilterOk(Filtered(items[..read], f), items, f, read)
  {
    if read > 0 {
      FilteredIsOk(items, f, read - 1);
      assert items[..read][..read - 1] == items[..read - 1];
      DeliverOk(Filtered(items[..read - 1], f), items, f, read - 1);
    }
  }

  lemma FilteredSnoc(items: seq<Item>, f: Floors, k: nat)
    requires k < |items|
    ensures Filtered(items[..k + 1], f) == Deliver(Filtered(items[..k], f), items[k], k, f)
  {
    assert items[..k + 1][..k] == items[..k];
  }

  /** One turn of the loop; `forwarded` is the epoch of the last record sent on. */
  method Forward(d: seq<Delivery>, forwarded: nat, o: Output, cache: HeaderCache, k: nat, f: Floors)
    returns (e: seq<Delivery>, last: nat)
    requires forwarded == LastConfig(d) && !Ends(o) && cache.Valid()
    ensures e == Deliver(d, Item(o, FoundIn(cache.entries, o.epoch)), k, f) && last == LastConfig(e)
  {
    e, last := d, forwarded;
    if o.content.Config? {
      if o.epoch < f.epoch {
        return;
      }
      last := o.epoch;
    } else {
      if o.span.begin < f.source || (!o.content.Video? && o.epoch < f.epoch) {
        return;
      }
      if o.content.Header? {
        last := o.epoch;
      } else if o.content.Audio? && f.aac && forwarded != o.epoch {
        var h := cache.Lookup(o.epoch);
        if h.None? || h.value.epoch < f.epoch {
          return;
        }
        LastConfigSnoc(e, Injected(h.value));
        e, last := e + [Injected(h.value)], h.value.epoch;
      }
    }
    LastConfigSnoc(e, Passed(o, k));
    e := e + [Passed(o, k)];
  }

  /** The producer's side, as far as the header cache goes. */
  method StoreAll(cache: HeaderCache, batch: seq<Output>)
    requires cache.Valid()
    modifies cache
    ensures cache.Valid() && cache.history == old(cache.history) + Configs(batch)
  {
    for i := 0 to |batch|
      invariant cache.Valid() && cache.history == old(cache.history) + Configs(batch[..i])
    {
      assert batch[..i + 1][..i] == batch[..i];
      cache.Store(batch[i]);
    }
    assert batch[..|batch|] == batch;
  }

  ghost predicate NoneEnds(outputs: seq<Output>, n: nat) { forall i :: 0 <= i < n <= |outputs| ==> !Ends(outputs[i]) }

  lemma RunsOn(outputs: seq<Output>, n: nat)
    requires n < |outputs| && NoneEnds(outputs, n) && !Ends(outputs[n])
    ensures NoneEnds(outputs, n + 1)
  {
  }

  /** What the producer stores, then the reader's turn. */
  method Turn(cache: HeaderCache, batch: seq<Output>, d: seq<Delivery>, forwarded: nat, o: Output, k: nat, f: Floors,
              ghost x: Item)
    returns (e: seq<Delivery>, last: nat)
    requires cache.Valid() && forwarded == LastConfig(d) && !Ends(o)
    requires x == Item(o, FoundIn(CacheAfter(cache.history + Configs(batch)), o.epoch))
    modifies cache
    ensures cache.Valid() && cache.history == old(cache.history) + Configs(batch)
    ensures e == Deliver(d, x, k, f) && last == LastConfig(e)
  {
    StoreAll(cache, batch);
    e, last := Forward(d, forwarded, o, cache, k, f);
  }

  /** The reader's loop, over the outputs it reads until it stops, beside a running producer. */
  method Bridge(cache: HeaderCache, outputs: seq<Output>, stores: seq<seq<Output>>, f: Floors)
    returns (delivered: seq<Delivery>, read: nat)
    requires cache.Valid() && |stores| == |outputs|
    modifies cache
    ensures cache.Valid() && read <= |outputs|
    ensures delivered == Filtered(Items(outputs, old(cache.history), stores)[..read], f)
    ensures read < |outputs| ==> Ends(outputs[read])
    ensures NoneEnds(outputs, read)
  {
    ghost var history, items := cache.history, Items(outputs, cache.history, stores);
    delivered, read := [], 0;
    var forwarded := 0;
    while read < |outputs| && !Ends(outputs[read])
      invariant cache.Valid() && read <= |outputs| && cache.history == HistoryAfter(history, stores, read)
      invariant delivered == Filtered(items[..read], f) && forwarded == LastConfig(delivered)
      invariant NoneEnds(outputs, read)
    {
      FilteredSnoc(items, f, read);
      ItemsAt(outputs, history, stores, read);
      RunsOn(outputs, read);
      delivered, forwarded := Turn(cache, stores[read], delivered, forwarded, outputs[read], read, f, items[read]);
      read := read + 1;
    }
  }

  // ---------------------------------------------------------------- configured audio

  /** Position j holds the last configuration record before position i. */
  ghost predicate IsLastConfig(d: seq<Delivery>, j: nat, i: nat) {
    && j < i <= |d| && d[j].output.IsHeader()
    && forall k :: j < k < i ==> !d[k].output.IsHeader()
  }

  /** The last record before position i is there and is of that position's epoch. */
  ghost predicate ConfiguredAt(d: seq<Delivery>, i: nat)
    requires i < |d|
  {
    exists j: nat :: IsLastConfig(d, j, i) && d[j].output.epoch == d[i].output.epoch
  }

  ghost predicate HasConfig(d: seq<Delivery>) { exists j :: 0 <= j < |d| && d[j].output.IsHeader() }

  lemma {:induction false} LastConfigIsThere(d: seq<Delivery>) returns (j: nat)
    requires LastConfig(d) >= 1 || HasConfig(d)
    ensures IsLastConfig(d, j, |d|) && d[j].output.epoch == LastConfig(d)
  {
    var m := d[..|d| - 1];
    if d[|d| - 1].output.IsHeader() {
      j := |d| - 1;
    } else {
      if i :| 0 <= i < |d| && d[i].output.IsHeader() {
        assert m[i].output.IsHeader();
      }
      j := LastConfigIsThere(m);
      assert forall k :: 0 <= k < |m| ==> m[k] == d[k];
    }
  }

  /**
   * The exact condition, for each audio frame a reader delivers for an AAC target: the last
   * record before it is of its epoch if and only if its epoch is not zero or any record at all
   * was delivered before it.
   */
  lemma ConfiguredIff(outputs: seq<Output>, history: seq<Output>, stores: seq<seq<Output>>, f: Floors,
                      d: seq<Delivery>, i: nat)
    requires |stores| == |outputs| && ConfigsOnly(history) && f.aac && d == Filtered(Items(outputs, history, stores), f)
    requires i < |d| && d[i].output.content.Audio?
    ensures ConfiguredAt(d, i) <==> d[i].output.epoch >= 1 || HasConfig(d[..i])
  {
    var items := Items(outputs, history, stores);
    ItemsAreOk(outputs, history, stores);
    assert items[..|items|] == items;
    FilteredIsOk(items, f, |items|);
    assert LastConfig(d[..i]) == d[i].output.epoch;
    assert forall k :: 0 <= k < i ==> d[..i][k] == d[k];
    if d[i].output.epoch >= 1 || HasConfig(d[..i]) {
      var j := LastConfigIsThere(d[..i]);
      assert IsLastConfig(d, j, i);
    }
    if ConfiguredAt(d, i) {
      var j: nat :| IsLastConfig(d, j, i) && d[j].output.epoch == d[i].output.epoch;
      assert d[..i][j].output.IsHeader();
    }
  }
}
