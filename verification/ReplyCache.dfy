/**
 The two bounded memories of the tunnel client: complete replies kept for repeated requests, and the
 ids of streams that ended recently. Entries are listed in the order in which they were inserted.
 */
module ReplyCaches {
  const TTL := 300.0
  const ENTRY_LIMIT := 1024
  const BYTES_LIMIT := 16 * 1024 * 1024

  /** A reply of `bytes` characters of body and headers, stored at time `stored`. */
  datatype Entry = Entry(id: string, bytes: nat, stored: real)

  predicate Expired(entry: Entry, now: real) {
    now - entry.stored > TTL
  }

  function Unexpired(entries: seq<Entry>, now: real): seq<Entry> {
    if entries == [] then []
    else (if Expired(entries[0], now) then [] else [entries[0]]) + Unexpired(entries[1..], now)
  }

  function TotalBytes(entries: seq<Entry>): nat {
    if entries == [] then 0 else entries[0].bytes + TotalBytes(entries[1..])
  }

  predicate Over(entries: seq<Entry>) {
    |entries| > ENTRY_LIMIT || TotalBytes(entries) > BYTES_LIMIT
  }

  /** The first of the entries with the least timestamp. */
  function Oldest(entries: seq<Entry>): (k: nat)
    requires entries != []
    ensures k < |entries|
    ensures forall i :: 0 <= i < |entries| ==> entries[k].stored <= entries[i].stored
    ensures forall i :: 0 <= i < k ==> entries[k].stored < entries[i].stored
  {
    if |entries| == 1 then 0 else
      var rest := entries[1..];
      var k := Oldest(rest);
      assert forall i :: 1 <= i < |entries| ==> entries[i] == rest[i - 1];
      if entries[0].stored <= entries[k + 1].stored then 0 else k + 1
  }

  function Without(entries: seq<Entry>, k: nat): seq<Entry>
    requires k < |entries|
  {
    entries[..k] + entries[k + 1..]
  }

  function Evict(entries: seq<Entry>): seq<Entry>
    decreases |entries|
  {
    if entries != [] && Over(entries) then Evict(Without(entries, Oldest(entries))) else entries
  }

  function Sweep(entries: seq<Entry>, now: real): seq<Entry> {
    Evict(Unexpired(entries, now))
  }

  ghost predicate DistinctIds(entries: seq<Entry>) {
    forall i, j :: 0 <= i < j < |entries| ==> entries[i].id != entries[j].id
  }

  /** `part` is `whole` with some entries left out. */
  ghost predicate Sublist(part: seq<Entry>, whole: seq<Entry>) {
    if part == [] then true
    else whole != [] && ((part[0] == whole[0] && Sublist(part[1..], whole[1..])) || Sublist(part, whole[1..]))
  }

  lemma {:induction false} SublistOfSelf(entries: seq<Entry>)
    ensures Sublist(entries, entries)
  {
    if entries != [] { SublistOfSelf(entries[1..]); }
  }

  lemma {:induction false} SublistTrans(a: seq<Entry>, b: seq<Entry>, c: seq<Entry>)
    requires Sublist(a, b) && Sublist(b, c)
    ensures Sublist(a, c)
    decreases |b| + |c|
  {
    if a != [] {
      if b[0] == c[0] && Sublist(b[1..], c[1..]) {
        if a[0] == b[0] && Sublist(a[1..], b[1..]) {
          SublistTrans(a[1..], b[1..], c[1..]);
        } else {
          SublistTrans(a, b[1..], c[1..]);
        }
      } else {
        SublistTrans(a, b, c[1..]);
      }
    }
  }

  lemma {:induction false} WithoutIsSublist(entries: seq<Entry>, k: nat)
    requires k < |entries|
    ensures Sublist(Without(entries, k), entries)
  {
    if k == 0 {
      assert Without(entries, 0) == entries[1..];
      SublistOfSelf(entries[1..]);
      SublistSkips(entries[1..], entries);
    } else {
      assert Without(entries, k)[1..] == Without(entries[1..], k - 1);
      WithoutIsSublist(entries[1..], k - 1);
    }
  }

  lemma OnlyOneLess(entries: seq<Entry>, k: nat)
    requires k < |entries|
    ensures forall e :: e in entries ==> e == entries[k] || e in Without(entries, k)
  {
    var fewer := Without(entries, k);
    assert forall i :: 0 <= i < k ==> fewer[i] == entries[i];
    assert forall i :: k < i < |entries| ==> fewer[i - 1] == entries[i];
  }

  lemma SublistSkips(part: seq<Entry>, whole: seq<Entry>)
    requires whole != [] && Sublist(part, whole[1..])
    ensures Sublist(part, whole)
  {}

  lemma {:induction false} UnexpiredIsSublist(entries: seq<Entry>, now: real)
    ensures Sublist(Unexpired(entries, now), entries)
    ensures forall e :: e in Unexpired(entries, now) <==> e in entries && !Expired(e, now)
  {
    if entries != [] {
      UnexpiredIsSublist(entries[1..], now);
      var kept := Unexpired(entries, now);
      var rest := Unexpired(entries[1..], now);
      if Expired(entries[0], now) {
        assert kept == rest;
        SublistSkips(rest, entries);
      } else {
        assert kept[0] == entries[0] && kept[1..] == rest;
      }
      assert forall e :: e in entries <==> e == entries[0] || e in entries[1..];
    }
  }

  /** Eviction ends within the limits, drops only entries no newer than all it keeps, and does not go
      one entry too far: putting the last one back would exceed a limit. */
  lemma {:induction false} EvictIsExact(entries: seq<Entry>)
    ensures var kept := Evict(entries);
            && |kept| <= ENTRY_LIMIT && TotalBytes(kept) <= BYTES_LIMIT
            && Sublist(kept, entries)
            && (forall e, k :: e in entries && e !in kept && k in kept ==> e.stored <= k.stored)
            && (kept != entries ==>
                  exists before :: Sublist(before, entries) && before != []
                                   && (|before| > ENTRY_LIMIT || TotalBytes(before) > BYTES_LIMIT)
                                   && kept == Without(before, Oldest(before)))
    decreases |entries|
  {
    var kept := Evict(entries);
    if entries != [] && Over(entries) {
      var k := Oldest(entries);
      var fewer := Without(entries, k);
      EvictIsExact(fewer);
      WithoutIsSublist(entries, k);
      SublistTrans(kept, fewer, entries);
      MembersOfSublist(kept, entries);
      OnlyOneLess(entries, k);
      if kept == fewer {
        SublistOfSelf(entries);
      } else {
        var before :| Sublist(before, fewer) && before != []
                      && (|before| > ENTRY_LIMIT || TotalBytes(before) > BYTES_LIMIT)
                      && kept == Without(before, Oldest(before));
        SublistTrans(before, fewer, entries);
      }
    } else {
      SublistOfSelf(entries);
    }
  }

  lemma {:induction false} MembersOfSublist(part: seq<Entry>, whole: seq<Entry>)
    requires Sublist(part, whole)
    ensures forall e :: e in part ==> e in whole
    decreases |whole|
  {
    if part != [] {
      if part[0] == whole[0] && Sublist(part[1..], whole[1..]) {
        MembersOfSublist(part[1..], whole[1..]);
        assert forall e :: e in part <==> e == part[0] || e in part[1..];
      } else {
        MembersOfSublist(part, whole[1..]);
      }
    }
  }

  /** The sweep: what stays is within both limits and unexpired, in its old order; what goes is expired
      or no newer than everything that stays. */
  lemma SweepIsExact(entries: seq<Entry>, now: real)
    ensures var kept := Sweep(entries, now);
            && |kept| <= ENTRY_LIMIT && TotalBytes(kept) <= BYTES_LIMIT
            && Sublist(kept, entries)
            && (forall k :: k in kept ==> k in entries && !Expired(k, now))
            && (forall e, k :: e in entries && e !in kept && k in kept ==> Expired(e, now) || e.stored <= k.stored)
            && (var unexpired := Unexpired(entries, now);
                |unexpired| <= ENTRY_LIMIT && TotalBytes(unexpired) <= BYTES_LIMIT ==> kept == unexpired)
  {
    var unexpired := Unexpired(entries, now);
    var kept := Sweep(entries, now);
    UnexpiredIsSublist(entries, now);
    EvictIsExact(unexpired);
    SublistTrans(kept, unexpired, entries);
    MembersOfSublist(kept, unexpired);
  }

  // ---- ids of streams that ended

  function FirstWithId(entries: seq<Entry>, id: string): (k: nat)
    ensures k <= |entries|
    ensures forall i :: 0 <= i < k ==> entries[i].id != id
    ensures k < |entries| ==> entries[k].id == id
  {
    if entries == [] || entries[0].id == id then 0
    else
      var k := FirstWithId(entries[1..], id);
      assert forall i :: 1 <= i < |entries| ==> entries[i] == entries[1..][i - 1];
      k + 1
  }

  predicate Has(entries: seq<Entry>, id: string) {
    FirstWithId(entries, id) < |entries|
  }

  /** Assignment to a key: in place when the key is there, at the end otherwise. */
  function Put(entries: seq<Entry>, entry: Entry): seq<Entry> {
    var k := FirstWithId(entries, entry.id);
    if k < |entries| then entries[k := entry] else entries + [entry]
  }

  function EvictForOneMore(entries: seq<Entry>): seq<Entry>
    decreases |entries|
  {
    if |entries| >= ENTRY_LIMIT then EvictForOneMore(Without(entries, Oldest(entries))) else entries
  }

  function Remember(entries: seq<Entry>, id: string, now: real): seq<Entry> {
    Put(EvictForOneMore(Unexpired(entries, now)), Entry(id, 0, now))
  }

  function IsTerminated(entries: seq<Entry>, id: string, now: real): bool {
    var k := FirstWithId(entries, id);
    k < |entries| && !Expired(entries[k], now)
  }

  lemma {:induction false} EvictForOneMoreFits(entries: seq<Entry>)
    ensures |EvictForOneMore(entries)| < ENTRY_LIMIT
    ensures Sublist(EvictForOneMore(entries), entries)
    decreases |entries|
  {
    if |entries| >= ENTRY_LIMIT {
      var fewer := Without(entries, Oldest(entries));
      EvictForOneMoreFits(fewer);
      WithoutIsSublist(entries, Oldest(entries));
      SublistTrans(EvictForOneMore(fewer), fewer, entries);
    } else {
      SublistOfSelf(entries);
    }
  }

  /** The memory never exceeds its limit, whatever it held, and until another id is remembered an id is
      recognised for exactly the time to live. */
  lemma RememberIsBounded(entries: seq<Entry>, id: string, now: real, later: real)
    ensures |Remember(entries, id, now)| <= ENTRY_LIMIT
    ensures IsTerminated(Remember(entries, id, now), id, later) <==> later - now <= TTL
  {
    EvictForOneMoreFits(Unexpired(entries, now));
    var kept := EvictForOneMore(Unexpired(entries, now));
    var after := Remember(entries, id, now);
    var k := FirstWithId(kept, id);
    assert forall i :: 0 <= i < k ==> after[i] == kept[i];
    assert after[k] == Entry(id, 0, now);
    assert FirstWithId(after, id) == k;
  }

  // ---- one entry for each id

  lemma {:induction false} SublistDistinct(part: seq<Entry>, whole: seq<Entry>)
    requires Sublist(part, whole) && DistinctIds(whole)
    ensures DistinctIds(part)
    decreases |whole|
  {
    if part != [] {
      if part[0] == whole[0] && Sublist(part[1..], whole[1..]) {
        SublistDistinct(part[1..], whole[1..]);
        MembersOfSublist(part[1..], whole[1..]);
        forall i, j | 0 <= i < j < |part| ensures part[i].id != part[j].id {
          assert part[j] == part[1..][j - 1] && part[j] in whole[1..];
          if i > 0 { assert part[i] == part[1..][i - 1]; }
        }
      } else {
        SublistDistinct(part, whole[1..]);
      }
    }
  }

  lemma PutKeepsDistinct(entries: seq<Entry>, entry: Entry)
    requires DistinctIds(entries)
    ensures DistinctIds(Put(entries, entry))
  {
    var after := Put(entries, entry);
    var k := FirstWithId(entries, entry.id);
    forall i, j | 0 <= i < j < |after| ensures after[i].id != after[j].id {
      assert i != k ==> after[i] == entries[i];
    }
  }

  lemma HasIffMember(entries: seq<Entry>, id: string)
    ensures Has(entries, id) <==> exists e :: e in entries && e.id == id
  {
    var k := FirstWithId(entries, id);
    if k < |entries| { assert entries[k] in entries; }
  }

  /** Storing, sweeping and remembering leave one entry for each id. */
  lemma IdsStayDistinct(entries: seq<Entry>, entry: Entry, now: real)
    requires DistinctIds(entries)
    ensures DistinctIds(Put(entries, entry)) && DistinctIds(Sweep(entries, now))
    ensures DistinctIds(Remember(entries, entry.id, now))
  {
    PutKeepsDistinct(entries, entry);
    SweepIsExact(entries, now);
    SublistDistinct(Sweep(entries, now), entries);
    RememberKeepsDistinct(entries, entry.id, now);
  }

  lemma RememberKeepsDistinct(entries: seq<Entry>, id: string, now: real)
    requires DistinctIds(entries)
    ensures DistinctIds(Remember(entries, id, now))
  {
    var unexpired := Unexpired(entries, now);
    UnexpiredIsSublist(entries, now);
    SublistDistinct(unexpired, entries);
    EvictForOneMoreFits(unexpired);
    SublistDistinct(EvictForOneMore(unexpired), unexpired);
    PutKeepsDistinct(EvictForOneMore(unexpired), Entry(id, 0, now));
  }

  // ---- how long an id is remembered

  /** The entry of the id was stored at this time. */
  predicate StoredAt(entries: seq<Entry>, id: string, stored: real) {
    var k := FirstWithId(entries, id);
    k < |entries| && entries[k].stored == stored
  }

  function StoredSince(entries: seq<Entry>, stored: real): nat {
    if entries == [] then 0 else (if entries[0].stored >= stored then 1 else 0) + StoredSince(entries[1..], stored)
  }

  /** How many entries are evicted later than that of `id`, stored at time `stored`: the newer ones, and those
      of the same time that come after it. */
  function Outlasting(entries: seq<Entry>, id: string, stored: real): nat {
    if entries == [] then 0
    else if entries[0].id == id then StoredSince(entries[1..], stored)
    else (if entries[0].stored > stored then 1 else 0) + Outlasting(entries[1..], id, stored)
  }

  lemma {:induction false} AllOutlast(entries: seq<Entry>, id: string, stored: real)
    requires StoredAt(entries, id, stored) && Oldest(entries) == FirstWithId(entries, id)
    ensures Outlasting(entries, id, stored) == |entries| - 1
  {
    var k := FirstWithId(entries, id);
    TailStoredSince(entries[k + 1..], stored);
    OutlastingFrom(entries, id, stored, 0);
    assert entries[0..] == entries;
  }

  lemma {:induction false} TailStoredSince(entries: seq<Entry>, stored: real)
    requires forall i :: 0 <= i < |entries| ==> entries[i].stored >= stored
    ensures StoredSince(entries, stored) == |entries|
  {
    if entries != [] { TailStoredSince(entries[1..], stored); }
  }

  lemma {:induction false} OutlastingFrom(entries: seq<Entry>, id: string, stored: real, i: nat)
    requires StoredAt(entries, id, stored) && i <= FirstWithId(entries, id)
    requires forall j :: i <= j < FirstWithId(entries, id) ==> entries[j].stored > stored
    ensures Outlasting(entries[i..], id, stored)
         == FirstWithId(entries, id) - i + StoredSince(entries[FirstWithId(entries, id) + 1..], stored)
    decreases FirstWithId(entries, id) - i
  {
    assert entries[i..][1..] == entries[i + 1..];
    if i < FirstWithId(entries, id) { OutlastingFrom(entries, id, stored, i + 1); }
  }

  lemma {:induction false} StoredSinceWithout(entries: seq<Entry>, k: nat, stored: real)
    requires k < |entries|
    ensures StoredSince(Without(entries, k), stored)
         == StoredSince(entries, stored) - (if entries[k].stored >= stored then 1 else 0)
  {
    if k == 0 {
      assert Without(entries, 0) == entries[1..];
    } else {
      assert Without(entries, k)[1..] == Without(entries[1..], k - 1);
      StoredSinceWithout(entries[1..], k - 1, stored);
    }
  }

  lemma HeadAndRest(entries: seq<Entry>, id: string, stored: real)
    requires entries != []
    ensures var rest := entries[1..];
            if entries[0].id == id then
              && FirstWithId(entries, id) == 0
              && (StoredAt(entries, id, stored) <==> entries[0].stored == stored)
              && Outlasting(entries, id, stored) == StoredSince(rest, stored)
            else
              && FirstWithId(entries, id) == FirstWithId(rest, id) + 1
              && (StoredAt(entries, id, stored) <==> StoredAt(rest, id, stored))
              && Outlasting(entries, id, stored)
                 == (if entries[0].stored > stored then 1 else 0) + Outlasting(rest, id, stored)
  {}

  predicate Outlasts(entries: seq<Entry>, k: nat, id: string, stored: real)
    requires k < |entries|
  {
    entries[k].stored > stored || (entries[k].stored == stored && k > FirstWithId(entries, id))
  }

  /** What taking entry `k` away does to the entry of `id`. */
  ghost predicate OneLess(entries: seq<Entry>, k: nat, id: string, stored: real)
    requires k < |entries|
  {
    && StoredAt(Without(entries, k), id, stored)
    && Outlasting(Without(entries, k), id, stored)
       == Outlasting(entries, id, stored) - (if Outlasts(entries, k, id, stored) then 1 else 0)
  }

  lemma WithoutFirst(entries: seq<Entry>, id: string, stored: real)
    requires entries != [] && entries[0].id != id && StoredAt(entries, id, stored)
    ensures OneLess(entries, 0, id, stored)
  {
    HeadAndRest(entries, id, stored);
    assert Without(entries, 0) == entries[1..];
  }

  lemma WithoutBehind(entries: seq<Entry>, k: nat, id: string, stored: real)
    requires 0 < k < |entries| && entries[0].id == id && StoredAt(entries, id, stored)
    ensures OneLess(entries, k, id, stored)
  {
    var fewer := Without(entries, k);
    HeadAndRest(entries, id, stored);
    assert fewer[0] == entries[0] && fewer[1..] == Without(entries[1..], k - 1) && entries[1..][k - 1] == entries[k];
    HeadAndRest(fewer, id, stored);
    StoredSinceWithout(entries[1..], k - 1, stored);
  }

  /** Taking another entry away leaves the one of `id`, and the number that outlasts it is one less exactly
      when the other one did. */
  lemma {:induction false} OutlastingWithout(entries: seq<Entry>, k: nat, id: string, stored: real)
    requires k < |entries| && entries[k].id != id && StoredAt(entries, id, stored)
    ensures OneLess(entries, k, id, stored)
  {
    if k == 0 {
      WithoutFirst(entries, id, stored);
    } else if entries[0].id == id {
      WithoutBehind(entries, k, id, stored);
    } else {
      var rest, fewer := entries[1..], Without(entries, k);
      HeadAndRest(entries, id, stored);
      assert fewer[0] == entries[0] && fewer[1..] == Without(rest, k - 1) && rest[k - 1] == entries[k];
      OutlastingWithout(rest, k - 1, id, stored);
      HeadAndRest(fewer, id, stored);
    }
  }

  lemma {:induction false} OutlastingFewer(entries: seq<Entry>, id: string, stored: real)
    requires StoredAt(entries, id, stored)
    ensures Outlasting(entries, id, stored) < |entries|
  {
    if entries[0].id == id { AtMostAll(entries[1..], stored); } else { OutlastingFewer(entries[1..], id, stored); }
  }

  lemma {:induction false} AtMostAll(entries: seq<Entry>, stored: real)
    ensures StoredSince(entries, stored) <= |entries|
  {
    if entries != [] { AtMostAll(entries[1..], stored); }
  }

  /** Eviction keeps an id exactly when fewer than the limit less one entries outlast it. */
  lemma {:induction false} EvictionKeepsIff(entries: seq<Entry>, id: string, stored: real)
    requires DistinctIds(entries) && StoredAt(entries, id, stored)
    ensures var kept := EvictForOneMore(entries);
            && (Has(kept, id) <==> Outlasting(entries, id, stored) < ENTRY_LIMIT - 1)
            && (Has(kept, id) ==> StoredAt(kept, id, stored)
                                  && Outlasting(kept, id, stored) == Outlasting(entries, id, stored))
    decreases |entries|
  {
    if |entries| < ENTRY_LIMIT {
      OutlastingFewer(entries, id, stored);
    } else {
      var o := Oldest(entries);
      var fewer := Without(entries, o);
      WithoutIsSublist(entries, o);
      SublistDistinct(fewer, entries);
      if entries[o].id == id {
        AllOutlast(entries, id, stored);
        GoneForGood(fewer, id);
      } else {
        OutlastingWithout(entries, o, id, stored);
        EvictionKeepsIff(fewer, id, stored);
      }
    }
  }

  lemma {:induction false} GoneForGood(entries: seq<Entry>, id: string)
    requires !Has(entries, id)
    ensures !Has(EvictForOneMore(entries), id)
  {
    EvictForOneMoreFits(entries);
    MembersOfSublist(EvictForOneMore(entries), entries);
    HasIffMember(entries, id);
    HasIffMember(EvictForOneMore(entries), id);
  }

  lemma {:induction false} UnexpiredKeeps(entries: seq<Entry>, now: real, id: string, stored: real)
    requires StoredAt(entries, id, stored) && now - stored <= TTL
    ensures StoredAt(Unexpired(entries, now), id, stored)
    ensures Outlasting(Unexpired(entries, now), id, stored) == Outlasting(entries, id, stored)
  {
    var rest, kept := entries[1..], Unexpired(entries, now);
    HeadAndRest(entries, id, stored);
    if entries[0].id == id { NewerUnexpired(rest, now, stored); } else { UnexpiredKeeps(rest, now, id, stored); }
    if Expired(entries[0], now) {
      assert kept == Unexpired(rest, now);
    } else {
      assert kept[0] == entries[0] && kept[1..] == Unexpired(rest, now);
      HeadAndRest(kept, id, stored);
    }
  }

  lemma {:induction false} NewerUnexpired(entries: seq<Entry>, now: real, stored: real)
    requires now - stored <= TTL
    ensures StoredSince(Unexpired(entries, now), stored) == StoredSince(entries, stored)
  {
    if entries != [] {
      NewerUnexpired(entries[1..], now, stored);
      var kept := Unexpired(entries, now);
      if Expired(entries[0], now) {
        assert kept == Unexpired(entries[1..], now);
      } else {
        assert kept[0] == entries[0] && kept[1..] == Unexpired(entries[1..], now);
      }
    }
  }

  lemma {:induction false} AppendOutlasts(entries: seq<Entry>, last: Entry, id: string, stored: real)
    requires StoredAt(entries, id, stored)
    ensures StoredAt(entries + [last], id, stored)
    ensures Outlasting(entries + [last], id, stored) <= Outlasting(entries, id, stored) + 1
  {
    assert (entries + [last])[1..] == entries[1..] + [last];
    if entries[0].id == id {
      SinceAppend(entries[1..], last, stored);
    } else {
      AppendOutlasts(entries[1..], last, id, stored);
    }
  }

  lemma {:induction false} SinceAppend(entries: seq<Entry>, last: Entry, stored: real)
    ensures StoredSince(entries + [last], stored) <= StoredSince(entries, stored) + 1
  {
    if entries != [] {
      assert (entries + [last])[1..] == entries[1..] + [last];
      SinceAppend(entries[1..], last, stored);
    }
  }

  lemma {:induction false} UpdateOutlasts(entries: seq<Entry>, k: nat, entry: Entry, id: string, stored: real)
    requires StoredAt(entries, id, stored) && k < |entries| && entries[k].id != id && entry.id != id
    ensures StoredAt(entries[k := entry], id, stored)
    ensures Outlasting(entries[k := entry], id, stored) <= Outlasting(entries, id, stored) + 1
  {
    if k == 0 {
      assert entries[0 := entry][1..] == entries[1..];
    } else {
      assert entries[k := entry][1..] == entries[1..][k - 1 := entry];
      if entries[0].id == id {
        SinceUpdate(entries[1..], k - 1, entry, stored);
      } else {
        UpdateOutlasts(entries[1..], k - 1, entry, id, stored);
      }
    }
  }

  lemma {:induction false} SinceUpdate(entries: seq<Entry>, k: nat, entry: Entry, stored: real)
    requires k < |entries|
    ensures StoredSince(entries[k := entry], stored) <= StoredSince(entries, stored) + 1
  {
    if k == 0 {
      assert entries[0 := entry][1..] == entries[1..];
    } else {
      assert entries[k := entry][1..] == entries[1..][k - 1 := entry];
      SinceUpdate(entries[1..], k - 1, entry, stored);
    }
  }

  lemma {:induction false} OtherStays(entries: seq<Entry>, entry: Entry, id: string)
    requires entry.id != id
    ensures Has(Put(entries, entry), id) <==> Has(entries, id)
  {
    var after := Put(entries, entry);
    var k := FirstWithId(entries, id);
    if k < |entries| { assert after[k].id == id; }
    var m := FirstWithId(after, id);
    if m < |after| { assert entries[m].id == id; }
  }

  /** Remembering another id forgets this one exactly when it has expired, or when as many entries as the
      limit allows beside the new one outlast it; one entry more, at most, outlasts it afterwards. */
  lemma {:induction false} RememberKeepsIff(entries: seq<Entry>, id: string, stored: real, other: string, now: real)
    requires DistinctIds(entries) && StoredAt(entries, id, stored) && other != id
    ensures var after := Remember(entries, other, now);
            && DistinctIds(after)
            && (Has(after, id) <==> now - stored <= TTL && Outlasting(entries, id, stored) < ENTRY_LIMIT - 1)
            && (Has(after, id) ==> StoredAt(after, id, stored)
                                   && Outlasting(after, id, stored) <= Outlasting(entries, id, stored) + 1)
  {
    IdsStayDistinct(entries, Entry(other, 0, now), now);
    var unexpired := Unexpired(entries, now);
    var kept := EvictForOneMore(unexpired);
    OtherStays(kept, Entry(other, 0, now), id);
    UnexpiredIsSublist(entries, now);
    SublistDistinct(unexpired, entries);
    if now - stored <= TTL {
      UnexpiredKeeps(entries, now, id, stored);
      EvictionKeepsIff(unexpired, id, stored);
      var k := FirstWithId(kept, other);
      if Has(kept, id) {
        if k < |kept| {
          UpdateOutlasts(kept, k, Entry(other, 0, now), id, stored);
        } else {
          AppendOutlasts(kept, Entry(other, 0, now), id, stored);
        }
      }
    } else {
      ExpiredIsGone(entries, id, stored, now);
      GoneForGood(unexpired, id);
    }
  }

  lemma ExpiredIsGone(entries: seq<Entry>, id: string, stored: real, now: real)
    requires DistinctIds(entries) && StoredAt(entries, id, stored) && now - stored > TTL
    ensures !Has(Unexpired(entries, now), id)
  {
    UnexpiredIsSublist(entries, now);
    HasIffMember(Unexpired(entries, now), id);
    forall e | e in entries && e.id == id ensures Expired(e, now) {
      var i :| 0 <= i < |entries| && entries[i] == e;
      assert i == FirstWithId(entries, id);
    }
  }

  datatype Call = Call(id: string, now: real)

  function RememberAll(entries: seq<Entry>, calls: seq<Call>): seq<Entry>
    decreases |calls|
  {
    if calls == [] then entries else RememberAll(Remember(entries, calls[0].id, calls[0].now), calls[1..])
  }

  lemma {:induction false} StaysThrough(entries: seq<Entry>, id: string, stored: real, calls: seq<Call>, later: real)
    requires DistinctIds(entries) && StoredAt(entries, id, stored)
    requires forall i :: 0 <= i < |calls| ==> calls[i].id != id && calls[i].now <= later
    requires later - stored <= TTL && Outlasting(entries, id, stored) + |calls| < ENTRY_LIMIT
    ensures StoredAt(RememberAll(entries, calls), id, stored)
    decreases |calls|
  {
    if calls != [] {
      RememberKeepsIff(entries, id, stored, calls[0].id, calls[0].now);
      StaysThrough(Remember(entries, calls[0].id, calls[0].now), id, stored, calls[1..], later);
    }
  }

  lemma OnlyOthers(entries: seq<Entry>, id: string, other: string, now: real)
    requires !Has(entries, id) && other != id
    ensures !Has(Remember(entries, other, now), id)
  {
    var unexpired := Unexpired(entries, now);
    UnexpiredIsSublist(entries, now);
    HasIffMember(entries, id);
    HasIffMember(unexpired, id);
    GoneForGood(unexpired, id);
    OtherStays(EvictForOneMore(unexpired), Entry(other, 0, now), id);
  }

  lemma {:induction false} StoredOrGone(entries: seq<Entry>, id: string, stored: real, calls: seq<Call>)
    requires DistinctIds(entries) && (Has(entries, id) ==> StoredAt(entries, id, stored))
    requires forall i :: 0 <= i < |calls| ==> calls[i].id != id
    ensures Has(RememberAll(entries, calls), id) ==> StoredAt(RememberAll(entries, calls), id, stored)
    decreases |calls|
  {
    if calls != [] {
      var other, now := calls[0].id, calls[0].now;
      if Has(entries, id) {
        RememberKeepsIff(entries, id, stored, other, now);
      } else {
        OnlyOthers(entries, id, other, now);
        RememberKeepsDistinct(entries, other, now);
      }
      StoredOrGone(Remember(entries, other, now), id, stored, calls[1..]);
    }
  }

  /** Over every run of later calls: an id is recognised for the whole time to live after it was last
      remembered unless so many others were remembered in the meantime that, with the entries of the very
      same time, they fill the memory; and it is never recognised for longer. */
  lemma {:induction false} RecognisedUnlessManyNewer(entries: seq<Entry>, id: string, now: real, calls: seq<Call>,
                                                     later: real)
    requires DistinctIds(entries)
    requires forall i :: 0 <= i < |calls| ==> calls[i].id != id && calls[i].now <= later
    ensures var first := Remember(entries, id, now);
            var memory := RememberAll(first, calls);
            && (later - now <= TTL && Outlasting(first, id, now) + |calls| < ENTRY_LIMIT ==>
                  IsTerminated(memory, id, later))
            && (later - now > TTL ==> !IsTerminated(memory, id, later))
  {
    var first := Remember(entries, id, now);
    RememberKeepsDistinct(entries, id, now);
    JustStored(EvictForOneMore(Unexpired(entries, now)), id, now);
    StoredOrGone(first, id, now, calls);
    if later - now <= TTL && Outlasting(first, id, now) + |calls| < ENTRY_LIMIT {
      StaysThrough(first, id, now, calls, later);
    }
  }

  lemma JustStored(entries: seq<Entry>, id: string, now: real)
    ensures StoredAt(Put(entries, Entry(id, 0, now)), id, now)
  {
    var after := Put(entries, Entry(id, 0, now));
    var k := FirstWithId(entries, id);
    assert forall i :: 0 <= i < k ==> after[i] == entries[i];
    assert after[k] == Entry(id, 0, now);
    assert FirstWithId(after, id) == k;
  }

  /** Before none of the calls do so many entries outlast that of the id that the next call evicts it. */
  predicate NeverCrowded(entries: seq<Entry>, id: string, stored: real, calls: seq<Call>)
    decreases |calls|
  {
    calls == [] ||
    (Outlasting(entries, id, stored) < ENTRY_LIMIT - 1
     && NeverCrowded(Remember(entries, calls[0].id, calls[0].now), id, stored, calls[1..]))
  }

  lemma {:induction false} GoneStaysGone(entries: seq<Entry>, id: string, calls: seq<Call>)
    requires !Has(entries, id) && forall i :: 0 <= i < |calls| ==> calls[i].id != id
    ensures !Has(RememberAll(entries, calls), id)
    decreases |calls|
  {
    if calls != [] {
      OnlyOthers(entries, id, calls[0].id, calls[0].now);
      GoneStaysGone(Remember(entries, calls[0].id, calls[0].now), id, calls[1..]);
    }
  }

  lemma {:induction false} StaysIffNeverCrowded(entries: seq<Entry>, id: string, stored: real, calls: seq<Call>,
                                                later: real)
    requires DistinctIds(entries) && StoredAt(entries, id, stored) && later - stored <= TTL
    requires forall i :: 0 <= i < |calls| ==> calls[i].id != id && calls[i].now <= later
    ensures Has(RememberAll(entries, calls), id) <==> NeverCrowded(entries, id, stored, calls)
    decreases |calls|
  {
    if calls != [] {
      var next := Remember(entries, calls[0].id, calls[0].now);
      RememberKeepsIff(entries, id, stored, calls[0].id, calls[0].now);
      if Has(next, id) {
        StaysIffNeverCrowded(next, id, stored, calls[1..], later);
      } else {
        GoneStaysGone(next, id, calls[1..]);
      }
    }
  }

  /** The exact condition, over every run of later calls: an id is recognised if and only if the time to live
      since it was last remembered is not over and before no call so many entries outlasted it that they filled
      the memory beside the new one. */
  lemma {:induction false} RecognisedIffNeverCrowded(entries: seq<Entry>, id: string, now: real, calls: seq<Call>,
                                                     later: real)
    requires DistinctIds(entries)
    requires forall i :: 0 <= i < |calls| ==> calls[i].id != id && calls[i].now <= later
    ensures var first := Remember(entries, id, now);
            IsTerminated(RememberAll(first, calls), id, later)
            <==> later - now <= TTL && NeverCrowded(first, id, now, calls)
  {
    var first := Remember(entries, id, now);
    RememberKeepsDistinct(entries, id, now);
    JustStored(EvictForOneMore(Unexpired(entries, now)), id, now);
    StoredOrGone(first, id, now, calls);
    if later - now <= TTL { StaysIffNeverCrowded(first, id, now, calls, later); }
  }

  /** A new id is outlasted by nothing, the clock not running backwards. */
  lemma {:induction false} NewIdIsLast(entries: seq<Entry>, id: string, now: real)
    requires !Has(entries, id) && forall e :: e in entries ==> e.stored <= now
    ensures Outlasting(Remember(entries, id, now), id, now) == 0
  {
    var unexpired := Unexpired(entries, now);
    UnexpiredIsSublist(entries, now);
    EvictForOneMoreFits(unexpired);
    var kept := EvictForOneMore(unexpired);
    MembersOfSublist(kept, unexpired);
    HasIffMember(entries, id);
    HasIffMember(kept, id);
    NoneNewer(kept, Entry(id, 0, now));
  }

  lemma {:induction false} NoneNewer(entries: seq<Entry>, last: Entry)
    requires forall i :: 0 <= i < |entries| ==> entries[i].id != last.id && entries[i].stored <= last.stored
    ensures Outlasting(entries + [last], last.id, last.stored) == 0
  {
    if entries == [] {
      assert ([] + [last])[1..] == [];
    } else {
      assert (entries + [last])[1..] == entries[1..] + [last];
      NoneNewer(entries[1..], last);
    }
  }

  method KeepUnexpired(entries: seq<Entry>, now: real) returns (kept: seq<Entry>)
    ensures kept == Unexpired(entries, now)
  {
    kept := [];
    var i := 0;
    while i < |entries|
      invariant 0 <= i <= |entries|
      invariant kept + Unexpired(entries[i..], now) == Unexpired(entries, now)
    {
      assert entries[i..][1..] == entries[i + 1..];
      if !(now - entries[i].stored > TTL) {
        kept := kept + [entries[i]];
      }
      i := i + 1;
    }
    assert entries[i..] == [];
  }

  class ReplyCache {
    var completed: seq<Entry>
    var terminated: seq<Entry>

    constructor ()
      ensures completed == [] && terminated == []
    {
      completed, terminated := [], [];
    }

    /** The byte count is kept by subtraction; it stays the true sum, which is why the loop stops
        before the cache is empty. */
    method CleanupCompleted(now: real)
      modifies this`completed
      ensures completed == Sweep(old(completed), now)
    {
      completed := KeepUnexpired(completed, now);
      var cachedBytes := 0;
      var i := 0;
      while i < |completed|
        invariant 0 <= i <= |completed|
        invariant completed == Unexpired(old(completed), now)
        invariant cachedBytes + TotalBytes(completed[i..]) == TotalBytes(completed)
      {
        assert completed[i..][1..] == completed[i + 1..];
        cachedBytes := cachedBytes + completed[i].bytes;
        i := i + 1;
      }
      assert completed[i..] == [];
      while |completed| > ENTRY_LIMIT || cachedBytes > BYTES_LIMIT
        invariant cachedBytes == TotalBytes(completed)
        invariant Evict(completed) == Sweep(old(completed), now)
        decreases |completed|
      {
        var k := Oldest(completed);
        WithoutBytes(completed, k);
        cachedBytes := cachedBytes - completed[k].bytes;
        completed := Without(completed, k);
      }
    }

    method StoreReply(id: string, bytes: nat, now: real)
      modifies this`completed
      ensures completed == Put(old(completed), Entry(id, bytes, now))
    {
      var k := FirstWithId(completed, id);
      if k < |completed| {
        completed := completed[k := Entry(id, bytes, now)];
      } else {
        completed := completed + [Entry(id, bytes, now)];
      }
    }

    method RememberTerminated(id: string, now: real)
      modifies this`terminated
      ensures terminated == Remember(old(terminated), id, now)
    {
      terminated := KeepUnexpired(terminated, now);
      while |terminated| >= ENTRY_LIMIT
        invariant EvictForOneMore(terminated) == EvictForOneMore(Unexpired(old(terminated), now))
        decreases |terminated|
      {
        terminated := Without(terminated, Oldest(terminated));
      }
      terminated := Put(terminated, Entry(id, 0, now));
    }

    /** An id found expired is forgotten. */
    method CheckTerminated(id: string, now: real) returns (known: bool)
      modifies this`terminated
      ensures known == IsTerminated(old(terminated), id, now)
      ensures terminated == old(terminated)
              || (Has(old(terminated), id) && terminated == Without(old(terminated), FirstWithId(old(terminated), id)))
      ensures known ==> terminated == old(terminated)
    {
      var k := FirstWithId(terminated, id);
      if k == |terminated| { return false; }
      if now - terminated[k].stored > TTL {
        terminated := Without(terminated, k);
        return false;
      }
      return true;
    }
  }

  lemma {:induction false} WithoutBytes(entries: seq<Entry>, k: nat)
    requires k < |entries|
    ensures TotalBytes(Without(entries, k)) == TotalBytes(entries) - entries[k].bytes
  {
    if k == 0 {
      assert Without(entries, 0) == entries[1..];
    } else {
      assert Without(entries, k)[1..] == Without(entries[1..], k - 1);
      WithoutBytes(entries[1..], k - 1);
    }
  }
}
