/** do/consent-rate.ts: per-source windows in a map that remembers insertion order and never grows
    past a fixed size. */
module ConsentRate {
  const WINDOW_MS := 60_000
  const MAX_PER_WINDOW := 30
  const MAX_KEYS := 10_000

  type Key = string

  datatype Window = Window(count: nat, resetAt: int)

  /** A JavaScript Map: setting an existing key keeps its place in the order. */
  datatype Windows = Windows(order: seq<Key>, at: map<Key, Window>)

  ghost predicate WellOrdered(s: Windows) {
    && (forall k :: k in s.order <==> k in s.at)
    && (forall i, j :: 0 <= i < j < |s.order| ==> s.order[i] != s.order[j])
  }

  ghost predicate Valid(s: Windows) { WellOrdered(s) && |s.order| <= MAX_KEYS }

  predicate LiveAt(s: Windows, k: Key, now: int)
    requires k in s.at
  {
    now < s.at[k].resetAt
  }

  // ---------------------------------------------------------------- one call

  function LiveKeys(s: Windows, keys: seq<Key>, now: int): seq<Key>
    requires forall k <- keys :: k in s.at
  {
    if keys == [] then []
    else
      var k := keys[|keys| - 1];
      LiveKeys(s, keys[..|keys| - 1], now) + if LiveAt(s, k, now) then [k] else []
  }

  function Pruned(s: Windows, now: int): Windows
    requires forall k <- s.order :: k in s.at
  {
    Windows(LiveKeys(s, s.order, now), map k | k in s.at && LiveAt(s, k, now) :: s.at[k])
  }

  function WithoutOldest(s: Windows): Windows
    requires s.order != []
  {
    Windows(s.order[1..], s.at - {s.order[0]})
  }

  /** Room for one more key. */
  function MadeRoom(s: Windows, now: int): Windows
    requires forall k <- s.order :: k in s.at
  {
    if |s.order| < MAX_KEYS then s
    else if |Pruned(s, now).order| < MAX_KEYS then Pruned(s, now)
    else WithoutOldest(Pruned(s, now))
  }

  function Put(s: Windows, key: Key, w: Window): Windows {
    Windows(if key in s.at then s.order else s.order + [key], s.at[key := w])
  }

  predicate Denies(s: Windows, key: Key, now: int) {
    key in s.at && LiveAt(s, key, now) && s.at[key].count >= MAX_PER_WINDOW
  }

  function After(s: Windows, key: Key, now: int): Windows
    requires forall k <- s.order :: k in s.at
  {
    if Denies(s, key, now) then s
    else if key in s.at then
      Put(s, key, if LiveAt(s, key, now) then s.at[key].(count := s.at[key].count + 1) else Window(1, now + WINDOW_MS))
    else Put(MadeRoom(s, now), key, Window(1, now + WINDOW_MS))
  }

  lemma {:induction false} LiveKeysAre(s: Windows, keys: seq<Key>, now: int, k: Key)
    requires forall o <- keys :: o in s.at
    ensures k in LiveKeys(s, keys, now) <==> k in keys && LiveAt(s, k, now)
  {
    if keys != [] {
      var rest, last := keys[..|keys| - 1], keys[|keys| - 1];
      LiveKeysAre(s, rest, now, k);
      assert k in keys <==> k in rest || k == last by { assert keys == rest + [last]; }
    }
  }

  /** Pruning keeps the order. */
  lemma {:induction false} LiveKeysInOrder(s: Windows, keys: seq<Key>, now: int, i: nat, j: nat) returns (p: nat, q: nat)
    requires forall o <- keys :: o in s.at
    requires i < j < |keys| && LiveAt(s, keys[i], now) && LiveAt(s, keys[j], now)
    ensures p < q < |LiveKeys(s, keys, now)| && LiveKeys(s, keys, now)[p] == keys[i] && LiveKeys(s, keys, now)[q] == keys[j]
  {
    var rest := keys[..|keys| - 1];
    if j < |rest| {
      p, q := LiveKeysInOrder(s, rest, now, i, j);
    } else {
      LiveKeysAre(s, rest, now, keys[i]);
      assert rest[i] == keys[i];
      p :| 0 <= p < |LiveKeys(s, rest, now)| && LiveKeys(s, rest, now)[p] == keys[i];
      q := |LiveKeys(s, rest, now)|;
    }
  }

  lemma {:induction false} LiveKeysDistinct(s: Windows, keys: seq<Key>, now: int)
    requires forall o <- keys :: o in s.at
    requires forall i, j :: 0 <= i < j < |keys| ==> keys[i] != keys[j]
    ensures forall i, j :: 0 <= i < j < |LiveKeys(s, keys, now)| ==> LiveKeys(s, keys, now)[i] != LiveKeys(s, keys, now)[j]
  {
    if keys != [] {
      var rest, last := keys[..|keys| - 1], keys[|keys| - 1];
      LiveKeysDistinct(s, rest, now);
      LiveKeysAre(s, rest, now, last);
      assert last !in rest;
    }
  }

  lemma {:induction false} LiveKeysAll(s: Windows, keys: seq<Key>, now: int)
    requires forall o <- keys :: o in s.at
    ensures |LiveKeys(s, keys, now)| <= |keys|
    ensures |LiveKeys(s, keys, now)| == |keys| ==> LiveKeys(s, keys, now) == keys
    ensures |LiveKeys(s, keys, now)| == |keys| <==> forall o <- keys :: LiveAt(s, o, now)
  {
    if keys != [] {
      var rest, last := keys[..|keys| - 1], keys[|keys| - 1];
      assert keys == rest + [last];
      LiveKeysAll(s, rest, now);
      assert (forall o <- keys :: LiveAt(s, o, now)) <==> (forall o <- rest :: LiveAt(s, o, now)) && LiveAt(s, last, now) by {
        assert forall o :: o in keys <==> o in rest || o == last;
      }
    }
  }

  /** Pruning keeps exactly the live entries, in their order. */
  lemma PrunedIsLive(s: Windows, now: int)
    requires WellOrdered(s)
    ensures WellOrdered(Pruned(s, now)) && |Pruned(s, now).order| <= |s.order|
    ensures |Pruned(s, now).order| == |s.order| <==> forall o <- s.order :: LiveAt(s, o, now)
    ensures |Pruned(s, now).order| == |s.order| ==> Pruned(s, now).order == s.order
  {
    LiveKeysDistinct(s, s.order, now);
    LiveKeysAll(s, s.order, now);
    forall k ensures k in Pruned(s, now).order <==> k in Pruned(s, now).at {
      LiveKeysAre(s, s.order, now, k);
    }
  }

  lemma OldestRemoved(s: Windows)
    requires WellOrdered(s) && s.order != []
    ensures WellOrdered(WithoutOldest(s)) && |WithoutOldest(s).order| == |s.order| - 1
    ensures forall k :: k in WithoutOldest(s).at <==> k in s.at && k != s.order[0]
  {
    var t := s.order[1..];
    forall k ensures k in t <==> k in s.order && k != s.order[0] {
      if k in s.order && k != s.order[0] {
        var i :| 0 <= i < |s.order| && s.order[i] == k;
        assert t[i - 1] == k;
      }
    }
  }

  lemma RoomIsValid(s: Windows, now: int)
    requires Valid(s)
    ensures WellOrdered(MadeRoom(s, now)) && |MadeRoom(s, now).order| < MAX_KEYS
  {
    PrunedIsLive(s, now);
    if |Pruned(s, now).order| == MAX_KEYS {
      OldestRemoved(Pruned(s, now));
    }
  }

  /** The map never exceeds its bound, whatever the clock shows. */
  lemma CallKeepsBound(s: Windows, key: Key, now: int)
    requires Valid(s)
    ensures Valid(After(s, key, now))
  {
    RoomIsValid(s, now);
  }

  lemma RoomLosesTheOldest(s: Windows, now: int, k: Key)
    requires Valid(s) && k in s.at && LiveAt(s, k, now)
    ensures k !in MadeRoom(s, now).at <==> |s.order| == MAX_KEYS && k == s.order[0] && |Pruned(s, now).order| == |s.order|
    ensures k in MadeRoom(s, now).at ==> MadeRoom(s, now).at[k] == s.at[k]
  {
    PrunedIsLive(s, now);
    if |s.order| == MAX_KEYS && |Pruned(s, now).order| == MAX_KEYS {
      OldestRemoved(Pruned(s, now));
    }
  }

  /** Who survives a call: an entry still live is lost only when it is the first of a map full of
      live entries and the caller is new; so one call loses at most one live entry. */
  lemma LiveEntryLostOnlyWhenFull(s: Windows, key: Key, now: int, k: Key)
    requires Valid(s) && k in s.at && LiveAt(s, k, now)
    ensures k !in After(s, key, now).at <==>
      key !in s.at && |s.order| == MAX_KEYS && k == s.order[0] && forall o <- s.order :: LiveAt(s, o, now)
    ensures k in After(s, key, now).at && k != key ==> After(s, key, now).at[k] == s.at[k]
  {
    RoomLosesTheOldest(s, now, k);
    PrunedIsLive(s, now);
  }

  /** One call, said of the map: a denied call changes nothing; an admitted one counts in the open window or
      opens one for a minute, keeps its key's place or takes the last, and touches no other window but to
      drop it. */
  lemma CallExactly(s: Windows, key: Key, now: int)
    requires Valid(s)
    ensures var denied := key in s.at && now < s.at[key].resetAt && s.at[key].count >= 30; var t := After(s, key, now);
      && (Denies(s, key, now) <==> denied)
      && (denied ==> t == s)
      && (!denied && key in s.at && now < s.at[key].resetAt ==>
            key in t.at && t.at[key] == Window(s.at[key].count + 1, s.at[key].resetAt))
      && (!(key in s.at && now < s.at[key].resetAt) ==> key in t.at && t.at[key] == Window(1, now + 60_000))
      && (key in s.at ==> t.order == s.order)
      && (key !in s.at ==> t.order != [] && t.order[|t.order| - 1] == key)
      && forall k <- t.at :: k != key ==> k in s.at && t.at[k] == s.at[k]
  {
  }

  ghost predicate Remaining(was: Windows, done: seq<Key>, now: int, windows: map<Key, Window>) {
    && (forall k :: k in windows <==> k in was.at && (k in done ==> LiveAt(was, k, now)))
    && (forall k <- windows :: windows[k] == was.at[k])
  }

  /** The state of the pruning loop after i entries. */
  ghost predicate PrunedUpTo(was: Windows, i: nat, now: int, windows: map<Key, Window>, kept: seq<Key>)
    requires WellOrdered(was)
  {
    i <= |was.order| && kept == LiveKeys(was, was.order[..i], now) && Remaining(was, was.order[..i], now, windows)
  }

  lemma OneMoreKey(was: Windows, done: seq<Key>, k: Key, now: int)
    requires k in was.at && forall o <- done :: o in was.at
    ensures forall o <- done + [k] :: o in was.at
    ensures LiveKeys(was, done + [k], now) == LiveKeys(was, done, now) + if LiveAt(was, k, now) then [k] else []
  {
    assert (done + [k])[..|done|] == done;
  }

  lemma OneMoreWindow(was: Windows, done: seq<Key>, k: Key, now: int, windows: map<Key, Window>)
    requires k in was.at && k !in done && Remaining(was, done, now, windows)
    ensures k in windows && windows[k] == was.at[k]
    ensures Remaining(was, done + [k], now, if LiveAt(was, k, now) then windows else windows - {k})
  {
    var after := if LiveAt(was, k, now) then windows else windows - {k};
    forall o ensures o in after <==> o in was.at && (o in done + [k] ==> LiveAt(was, o, now)) {
      assert o in done + [k] <==> o in done || o == k;
    }
  }

  lemma PruneStep(was: Windows, i: nat, now: int, windows: map<Key, Window>, kept: seq<Key>)
    requires WellOrdered(was) && i < |was.order| && PrunedUpTo(was, i, now, windows, kept)
    ensures was.order[i] in windows && windows[was.order[i]] == was.at[was.order[i]]
    ensures if LiveAt(was, was.order[i], now) then PrunedUpTo(was, i + 1, now, windows, kept + [was.order[i]])
            else PrunedUpTo(was, i + 1, now, windows - {was.order[i]}, kept)
  {
    var k, done := was.order[i], was.order[..i];
    assert was.order[..i + 1] == done + [k] && k !in done;
    OneMoreKey(was, done, k, now);
    OneMoreWindow(was, done, k, now, windows);
  }

  lemma AllPruned(was: Windows, now: int, windows: map<Key, Window>, kept: seq<Key>)
    requires WellOrdered(was) && PrunedUpTo(was, |was.order|, now, windows, kept)
    ensures Windows(kept, windows) == Pruned(was, now)
  {
    assert was.order[..|was.order|] == was.order;
  }

  class ConsentRateDO {
    var order: seq<Key>
    var windows: map<Key, Window>

    ghost function Contents(): Windows
      reads this
    {
      Windows(order, windows)
    }

    constructor ()
      ensures Contents() == Windows([], map[]) && Valid(Contents())
    {
      order, windows := [], map[];
    }

    method Allow(key: Key, now: int) returns (allowed: bool)
      requires Valid(Contents())
      modifies this
      ensures Valid(Contents())
      ensures Contents() == After(old(Contents()), key, now)
      ensures allowed <==> !Denies(old(Contents()), key, now)
      ensures allowed <==> !(key in old(windows) && now < old(windows)[key].resetAt && old(windows)[key].count >= 30)
    {
      CallKeepsBound(Contents(), key, now);
      if key in windows && now < windows[key].resetAt {
        var w := windows[key];
        if w.count >= MAX_PER_WINDOW {
          return false;
        }
        windows := windows[key := w.(count := w.count + 1)];
        return true;
      }
      if key !in windows && |order| >= MAX_KEYS {
        RoomIsValid(Contents(), now);
        PrunedIsLive(Contents(), now);
        Prune(now);
        while |order| >= MAX_KEYS
          invariant |order| <= MAX_KEYS
          invariant Contents() == Pruned(old(Contents()), now) || (|order| < MAX_KEYS && Contents() == MadeRoom(old(Contents()), now))
        {
          var oldest := order[0];
          order, windows := order[1..], windows - {oldest};
        }
      }
      if key !in windows {
        order := order + [key];
      }
      windows := windows[key := Window(1, now + WINDOW_MS)];
      allowed := true;
    }

    method Prune(now: int)
      requires WellOrdered(Contents())
      modifies this
      ensures Contents() == Pruned(old(Contents()), now)
    {
      ghost var was := Contents();
      var kept := [];
      for i := 0 to |order|
        invariant order == was.order && PrunedUpTo(was, i, now, windows, kept)
      {
        var k := order[i];
        PruneStep(was, i, now, windows, kept);
        if now >= windows[k].resetAt {
          windows := windows - {k};
        } else {
          kept := kept + [k];
        }
      }
      AllPruned(was, now, windows, kept);
      order := kept;
    }
  }

  // ---------------------------------------------------------------- what a denial means

  datatype Call = Call(key: Key, now: int, allowed: bool)

  /** The windows, all calls so far, and for each tracked key the call that opened its window. */
  datatype Log = Log(s: Windows, calls: seq<Call>, openedAt: map<Key, nat>)

  const FRESH := Log(Windows([], map[]), [], map[])

  predicate Opens(s: Windows, key: Key, now: int) { key !in s.at || !LiveAt(s, key, now) }

  function Called(l: Log, key: Key, now: int): Log
    requires forall k <- l.s.order :: k in l.s.at
  {
    Log(After(l.s, key, now), l.calls + [Call(key, now, !Denies(l.s, key, now))],
        if Opens(l.s, key, now) then l.openedAt[key := |l.calls|] else l.openedAt)
  }

  /** The admitted calls of a key from a call on. */
  function AdmittedFrom(calls: seq<Call>, key: Key, from: nat): nat {
    if |calls| <= from then 0
    else
      var last := calls[|calls| - 1];
      AdmittedFrom(calls[..|calls| - 1], key, from) + if last.key == key && last.allowed then 1 else 0
  }

  lemma AdmittedOneMore(calls: seq<Call>, c: Call, key: Key, from: nat)
    requires from <= |calls|
    ensures AdmittedFrom(calls + [c], key, from) == AdmittedFrom(calls, key, from) + if c.key == key && c.allowed then 1 else 0
  {
    assert (calls + [c])[..|calls|] == calls;
  }

  /** The window of a key was opened by its own call and counts its admitted calls since. */
  ghost predicate Tracked(l: Log, k: Key)
    requires k in l.s.at
  {
    && k in l.openedAt && l.openedAt[k] < |l.calls|
    && l.calls[l.openedAt[k]].key == k && l.calls[l.openedAt[k]].now + WINDOW_MS == l.s.at[k].resetAt
    && 1 <= AdmittedFrom(l.calls, k, l.openedAt[k]) == l.s.at[k].count <= MAX_PER_WINDOW
    && forall i :: l.openedAt[k] <= i < |l.calls| && l.calls[i].key == k ==> l.calls[i].now < l.s.at[k].resetAt
  }

  ghost predicate Inv(l: Log) { Valid(l.s) && forall k <- l.s.at :: Tracked(l, k) }

  lemma OtherStaysTracked(l: Log, key: Key, now: int, k: Key)
    requires Inv(l) && k != key && k in After(l.s, key, now).at
    ensures Tracked(Called(l, key, now), k)
  {
    assert k in l.s.at && After(l.s, key, now).at[k] == l.s.at[k];
    assert Tracked(l, k);
    AdmittedOneMore(l.calls, Call(key, now, !Denies(l.s, key, now)), k, l.openedAt[k]);
  }

  lemma CallerIsTracked(l: Log, key: Key, now: int)
    requires Inv(l)
    ensures Tracked(Called(l, key, now), key)
  {
    var c := Call(key, now, !Denies(l.s, key, now));
    if Opens(l.s, key, now) {
      AdmittedOneMore(l.calls, c, key, |l.calls|);
    } else {
      assert Tracked(l, key);
      AdmittedOneMore(l.calls, c, key, l.openedAt[key]);
    }
  }

  lemma CallKeepsInv(l: Log, key: Key, now: int)
    requires Inv(l)
    ensures Inv(Called(l, key, now))
  {
    CallKeepsBound(l.s, key, now);
    CallerIsTracked(l, key, now);
    forall k <- Called(l, key, now).s.at ensures Tracked(Called(l, key, now), k) {
      if k != key {
        OtherStaysTracked(l, key, now, k);
      }
    }
  }

  ghost predicate History(logs: seq<Log>, calls: seq<(Key, int)>) {
    && |logs| == |calls| + 1 && logs[0] == FRESH
    && forall i :: 0 <= i < |calls| ==>
         (forall k <- logs[i].s.order :: k in logs[i].s.at) && logs[i + 1] == Called(logs[i], calls[i].0, calls[i].1)
  }

  lemma {:induction false} HistoryKeepsInv(logs: seq<Log>, calls: seq<(Key, int)>, n: nat)
    requires History(logs, calls) && n < |logs|
    ensures Inv(logs[n])
  {
    if n > 0 {
      HistoryKeepsInv(logs, calls, n - 1);
      CallKeepsInv(logs[n - 1], calls[n - 1].0, calls[n - 1].1);
    }
  }

  /** A denied caller has had thirty calls of its own admitted since the call that opened its current
      window, every one of them before that window ends; and the window has not ended. */
  lemma DenialIsEarned(logs: seq<Log>, calls: seq<(Key, int)>, n: nat, key: Key, now: int)
    requires History(logs, calls) && n < |logs| && Denies(logs[n].s, key, now)
    ensures key in logs[n].openedAt && logs[n].openedAt[key] < |logs[n].calls|
    ensures var l := logs[n]; var from := l.openedAt[key];
      && AdmittedFrom(l.calls, key, from) == MAX_PER_WINDOW
      && l.calls[from].key == key
      && now < l.calls[from].now + WINDOW_MS
      && forall i :: from <= i < |l.calls| && l.calls[i].key == key ==> l.calls[i].now < l.calls[from].now + WINDOW_MS
  {
    HistoryKeepsInv(logs, calls, n);
    assert Tracked(logs[n], key);
  }

  /** In every history a tracked key has at most thirty admitted calls in its window, and its next call is
      denied exactly when it has thirty and comes within a minute of the call that opened the window. */
  lemma ThirtyAndNoMore(logs: seq<Log>, calls: seq<(Key, int)>, n: nat, key: Key, now: int)
    requires History(logs, calls) && n < |logs| && key in logs[n].s.at
    ensures key in logs[n].openedAt && logs[n].openedAt[key] < |logs[n].calls|
    ensures var l := logs[n]; var from := l.openedAt[key];
      && 1 <= AdmittedFrom(l.calls, key, from) <= 30
      && (Denies(l.s, key, now) <==> AdmittedFrom(l.calls, key, from) == 30 && now < l.calls[from].now + 60_000)
  {
    HistoryKeepsInv(logs, calls, n);
    assert Tracked(logs[n], key);
  }

  // ---------------------------------------------------------------- the oldest entry

  /** The first entries expire first. */
  ghost predicate Aged(s: Windows)
    requires WellOrdered(s)
  {
    forall i, j :: 0 <= i < j < |s.order| ==> s.at[s.order[i]].resetAt <= s.at[s.order[j]].resetAt
  }

  /** Insertion order is expiry order until a tracked key re-opens its expired window while a younger
      entry stands behind it: it keeps its old place with the latest expiry. From then on the entry
      evicted need not be the soonest to expire. */
  lemma ReopeningBreaksAge(s: Windows, now: int, i: nat)
    requires Valid(s) && Aged(s) && i < |s.order| && !LiveAt(s, s.order[i], now)
    requires forall k <- s.at :: s.at[k].resetAt <= now + WINDOW_MS
    ensures Valid(After(s, s.order[i], now))
    ensures Aged(After(s, s.order[i], now)) <==> forall j :: i < j < |s.order| ==> s.at[s.order[j]].resetAt == now + WINDOW_MS
  {
    CallKeepsBound(s, s.order[i], now);
    var t := After(s, s.order[i], now);
    assert t.order == s.order;
    assert forall j :: 0 <= j < |s.order| && j != i ==> t.at[s.order[j]] == s.at[s.order[j]];
    if Aged(t) {
      forall j | i < j < |s.order| ensures s.at[s.order[j]].resetAt == now + WINDOW_MS {
        assert t.at[t.order[i]].resetAt <= t.at[t.order[j]].resetAt;
      }
    }
  }

  // ---------------------------------------------------------------- a history in which the order is not by expiry

  /** Distinct keys, one for each number. */
  function Nth(i: nat): Key { seq(i + 1, _ => 'x') }

  function Keys(n: nat): seq<Key> { seq(n, i requires 0 <= i < n => Nth(i)) }

  /** The first n keys have called, the first one at time 0 and the others at time 1. */
  function Filled(n: nat): Windows {
    Windows(Keys(n), map k | k in Keys(n) :: Window(1, if k == Nth(0) then WINDOW_MS else WINDOW_MS + 1))
  }

  lemma NthDistinct(i: nat, j: nat)
    requires i != j
    ensures Nth(i) != Nth(j)
  {
    assert |Nth(i)| == i + 1 && |Nth(j)| == j + 1;
  }

  lemma NthIsNew(n: nat)
    ensures Nth(n) !in Keys(n) && Keys(n + 1) == Keys(n) + [Nth(n)]
  {
    forall i | 0 <= i < n ensures Keys(n)[i] != Nth(n) {
      NthDistinct(i, n);
    }
  }

  lemma NextCaller(n: nat)
    requires 0 < n < MAX_KEYS
    ensures After(Filled(n), Nth(n), 1) == Filled(n + 1)
  {
    NthIsNew(n);
    NthDistinct(0, n);
    assert forall k :: k in Keys(n + 1) <==> k in Keys(n) || k == Nth(n);
  }

  lemma OneMoreCall(logs: seq<Log>, calls: seq<(Key, int)>, key: Key, now: int, l: Log)
    requires History(logs, calls) && logs[|logs| - 1] == l && Inv(l)
    ensures History(logs + [Called(l, key, now)], calls + [(key, now)])
  {
    var ls, cs := logs + [Called(l, key, now)], calls + [(key, now)];
    forall i | 0 <= i < |cs|
      ensures (forall k <- ls[i].s.order :: k in ls[i].s.at) && ls[i + 1] == Called(ls[i], cs[i].0, cs[i].1)
    {
      assert i < |calls| ==> ls[i] == logs[i] && ls[i + 1] == logs[i + 1] && cs[i] == calls[i];
    }
  }

  lemma {:induction false} Filling(n: nat) returns (logs: seq<Log>, calls: seq<(Key, int)>)
    requires 0 < n <= MAX_KEYS
    ensures History(logs, calls) && logs[|logs| - 1].s == Filled(n)
  {
    if n == 1 {
      logs, calls := [FRESH], [];
      OneMoreCall(logs, calls, Nth(0), 0, FRESH);
      assert Keys(1) == [] + [Nth(0)];
    } else {
      logs, calls := Filling(n - 1);
      HistoryKeepsInv(logs, calls, |logs| - 1);
      OneMoreCall(logs, calls, Nth(n - 1), 1, logs[|logs| - 1]);
      NextCaller(n - 1);
    }
    var key, now := Nth(n - 1), if n == 1 then 0 else 1;
    logs, calls := logs + [Called(logs[|logs| - 1], key, now)], calls + [(key, now)];
  }

  /** The map is full; its first key returns when its window has just ended, and then a new key comes: the
      entry evicted ends a minute later, the one behind it ends next. */
  lemma OldestNeedNotExpireFirst() returns (logs: seq<Log>, calls: seq<(Key, int)>)
    ensures History(logs, calls) && |logs| > 1
    ensures var s, t, first, second := logs[|logs| - 2].s, logs[|logs| - 1].s, Nth(0), Nth(1);
      && first in s.at && second in s.at && first !in t.at && second in t.at
      && s.at[first].resetAt == 2 * WINDOW_MS && t.at[second].resetAt == WINDOW_MS + 1
  {
    logs, calls := Filling(MAX_KEYS);
    HistoryKeepsInv(logs, calls, |logs| - 1);
    var l := logs[|logs| - 1];
    OneMoreCall(logs, calls, Nth(0), WINDOW_MS, l);
    FirstReturns(l.s);
    logs, calls := logs + [Called(l, Nth(0), WINDOW_MS)], calls + [(Nth(0), WINDOW_MS)];
    HistoryKeepsInv(logs, calls, |logs| - 1);
    var m := logs[|logs| - 1];
    OneMoreCall(logs, calls, Nth(MAX_KEYS), WINDOW_MS, m);
    NewcomerEvicts(l.s, m.s);
    logs, calls := logs + [Called(m, Nth(MAX_KEYS), WINDOW_MS)], calls + [(Nth(MAX_KEYS), WINDOW_MS)];
  }

  lemma FirstReturns(s: Windows)
    requires s == Filled(MAX_KEYS)
    ensures After(s, Nth(0), WINDOW_MS) == Windows(s.order, s.at[Nth(0) := Window(1, 2 * WINDOW_MS)])
  {
    assert Keys(MAX_KEYS)[0] == Nth(0);
  }

  lemma NewcomerEvicts(s: Windows, t: Windows)
    requires s == Filled(MAX_KEYS) && t == Windows(s.order, s.at[Nth(0) := Window(1, 2 * WINDOW_MS)]) && Valid(t)
    ensures Nth(0) in t.at && Nth(1) in t.at && t.at[Nth(0)].resetAt == 2 * WINDOW_MS
    ensures Nth(0) !in After(t, Nth(MAX_KEYS), WINDOW_MS).at
    ensures Nth(1) in After(t, Nth(MAX_KEYS), WINDOW_MS).at && After(t, Nth(MAX_KEYS), WINDOW_MS).at[Nth(1)].resetAt == WINDOW_MS + 1
  {
    assert Keys(MAX_KEYS)[0] == Nth(0) && Keys(MAX_KEYS)[1] == Nth(1);
    NthDistinct(0, 1);
    NthDistinct(1, MAX_KEYS);
    NthIsNew(MAX_KEYS);
    LiveEntryLostOnlyWhenFull(t, Nth(MAX_KEYS), WINDOW_MS, Nth(0));
    LiveEntryLostOnlyWhenFull(t, Nth(MAX_KEYS), WINDOW_MS, Nth(1));
  }
}
