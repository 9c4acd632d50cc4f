/**
 The client's time-limited caches: entries expire, and a full cache loses its oldest quarter before
 a new entry goes in.
 */
module Cache {
  import opened Prelude

  type Key = string

  datatype Entry = Entry(time: nat, value: Option<string>)

  /** Whether an entry is young enough to be used. */
  predicate Fresh(e: Entry, now: nat, ttl: nat) {
    (now as int) - (e.time as int) < ttl
  }

  // ---------------------------------------------------------------- eviction

  /** Entries by age, oldest first; ties in any order. */
  function InsertByTime(e: (Key, nat), sorted: seq<(Key, nat)>): seq<(Key, nat)> {
    if sorted == [] || e.1 <= sorted[0].1 then [e] + sorted else [sorted[0]] + InsertByTime(e, sorted[1..])
  }

  function SortByTime(entries: seq<(Key, nat)>): seq<(Key, nat)> {
    if entries == [] then [] else InsertByTime(entries[0], SortByTime(entries[1..]))
  }

  predicate Sorted(entries: seq<(Key, nat)>) {
    forall i, j :: 0 <= i < j < |entries| ==> entries[i].1 <= entries[j].1
  }

  predicate Distinct(entries: seq<(Key, nat)>) {
    forall i, j :: 0 <= i < j < |entries| ==> entries[i].0 != entries[j].0
  }

  lemma {:induction false} InsertAdds(e: (Key, nat), sorted: seq<(Key, nat)>)
    ensures multiset(InsertByTime(e, sorted)) == multiset(sorted) + multiset{e}
  {
    if sorted != [] && e.1 > sorted[0].1 {
      InsertAdds(e, sorted[1..]);
      assert sorted == [sorted[0]] + sorted[1..];
    }
  }

  lemma {:induction false} InsertSorts(e: (Key, nat), sorted: seq<(Key, nat)>)
    requires Sorted(sorted)
    ensures Sorted(InsertByTime(e, sorted))
  {
    if sorted != [] && e.1 > sorted[0].1 {
      var r := InsertByTime(e, sorted[1..]);
      InsertSorts(e, sorted[1..]);
      InsertAdds(e, sorted[1..]);
      forall i | 0 <= i < |r| ensures sorted[0].1 <= r[i].1 {
        assert r[i] in multiset(r);
        assert r[i] == e || r[i] in sorted[1..];
      }
    }
  }

  lemma {:induction false} SortSorts(entries: seq<(Key, nat)>)
    ensures Sorted(SortByTime(entries)) && multiset(SortByTime(entries)) == multiset(entries)
  {
    if entries != [] {
      SortSorts(entries[1..]);
      InsertSorts(entries[0], SortByTime(entries[1..]));
      InsertAdds(entries[0], SortByTime(entries[1..]));
      assert entries == [entries[0]] + entries[1..];
    }
  }

  /** The sequence lists the keys of the cache with their times, each once. */
  ghost predicate Lists(entries: map<Key, Entry>, s: seq<(Key, nat)>) {
    && Distinct(s)
    && (forall i :: 0 <= i < |s| ==> s[i].0 in entries && entries[s[i].0].time == s[i].1)
    && (forall k :: k in entries ==> (k, entries[k].time) in s)
  }

  lemma DistinctFromMultiset(s: seq<(Key, nat)>, t: seq<(Key, nat)>)
    requires Distinct(s) && multiset(s) == multiset(t)
    ensures Distinct(t)
  {
    forall i, j | 0 <= i < j < |t| ensures t[i].0 != t[j].0 {
      if t[i].0 == t[j].0 {
        assert t[i] in multiset(t) && t[j] in multiset(t);
        var a :| 0 <= a < |s| && s[a] == t[i];
        var b :| 0 <= b < |s| && s[b] == t[j];
        assert a == b;
        TwiceInMultiset(t, i, j);
        OnceInMultiset(s, a);
      }
    }
  }

  lemma TwiceInMultiset(t: seq<(Key, nat)>, i: nat, j: nat)
    requires i < j < |t| && t[i] == t[j]
    ensures multiset(t)[t[i]] >= 2
  {
    assert t == t[..i] + [t[i]] + t[i + 1..j] + [t[j]] + t[j + 1..];
  }

  lemma OnceInMultiset(s: seq<(Key, nat)>, a: nat)
    requires Distinct(s) && a < |s|
    ensures multiset(s)[s[a]] == 1
  {
    assert s == s[..a] + [s[a]] + s[a + 1..];
    assert s[a] !in s[..a] && s[a] !in s[a + 1..];
  }

  lemma SortedLists(entries: map<Key, Entry>, s: seq<(Key, nat)>)
    requires Lists(entries, s)
    ensures Lists(entries, SortByTime(s)) && Sorted(SortByTime(s)) && |SortByTime(s)| == |s|
  {
    var t := SortByTime(s);
    SortSorts(s);
    assert |multiset(s)| == |s| && |multiset(t)| == |t|;
    DistinctFromMultiset(s, t);
    forall i | 0 <= i < |t| ensures t[i].0 in entries && entries[t[i].0].time == t[i].1 {
      assert t[i] in multiset(t);
      assert t[i] in s;
    }
    forall k | k in entries ensures (k, entries[k].time) in t {
      assert (k, entries[k].time) in multiset(s);
    }
  }

  lemma {:induction false} ListedCount(entries: map<Key, Entry>, s: seq<(Key, nat)>)
    requires Lists(entries, s)
    ensures |s| == |entries|
    decreases |s|
  {
    if s == [] {
      assert entries == map[];
    } else {
      var rest := entries - {s[0].0};
      assert rest.Keys == entries.Keys - {s[0].0};
      assert |rest.Keys| == |entries.Keys| - 1;
      ListedCount(rest, s[1..]);
    }
  }

  /** Which eviction results are allowed: a quarter goes, and nothing that stays is older. */
  ghost predicate EvictsOldestQuarter(before: map<Key, Entry>, after: map<Key, Entry>) {
    && after.Keys <= before.Keys
    && (forall k :: k in after ==> after[k] == before[k])
    && |after| == |before| - |before| / 4
    && (forall gone, kept :: gone in before && gone !in after && kept in after ==>
          before[gone].time <= before[kept].time)
  }

  function KeysOf(s: seq<(Key, nat)>): set<Key> {
    set x | x in s :: x.0
  }

  lemma DropNext(entries: map<Key, Entry>, s: seq<(Key, nat)>, i: nat)
    requires Lists(entries, s) && i < |s|
    ensures entries - KeysOf(s[..i + 1]) == entries - KeysOf(s[..i]) - {s[i].0}
    ensures |entries - KeysOf(s[..i + 1])| == |entries - KeysOf(s[..i])| - 1
  {
    assert s[..i + 1] == s[..i] + [s[i]];
    var rest := entries - KeysOf(s[..i]);
    forall x | x in s[..i] ensures x.0 != s[i].0 {
      var j :| 0 <= j < i && s[j] == x;
    }
    assert s[i].0 in rest;
    assert (rest - {s[i].0}).Keys == rest.Keys - {s[i].0};
  }

  lemma NothingDropped(entries: map<Key, Entry>, s: seq<(Key, nat)>)
    ensures entries - KeysOf(s[..0]) == entries
  {
  }

  /** Dropping a front part of the sorted list drops no entry younger than one that stays. */
  lemma FrontIsOldest(entries: map<Key, Entry>, s: seq<(Key, nat)>, n: nat, gone: Key, kept: Key)
    requires Lists(entries, s) && Sorted(s) && n <= |s|
    requires gone in entries && gone in KeysOf(s[..n]) && kept in entries && kept !in KeysOf(s[..n])
    ensures entries[gone].time <= entries[kept].time
  {
    var g :| 0 <= g < n && s[g].0 == gone;
    var k :| 0 <= k < |s| && s[k] == (kept, entries[kept].time);
    assert k < n ==> s[k] in s[..n];
  }

  lemma FrontQuarterIsOldest(entries: map<Key, Entry>, s: seq<(Key, nat)>, after: map<Key, Entry>)
    requires Lists(entries, s) && Sorted(s) && |s| == |entries|
    requires after == entries - KeysOf(s[..|s| / 4]) && |after| == |entries| - |s| / 4
    ensures EvictsOldestQuarter(entries, after)
  {
    hide Lists, Sorted, KeysOf;
    forall gone, kept | gone in entries && gone !in after && kept in after
      ensures entries[gone].time <= entries[kept].time
    {
      FrontIsOldest(entries, s, |s| / 4, gone, kept);
    }
  }

  class Cache {
    var entries: map<Key, Entry>
    const ttl: nat
    const maxSize: nat
    ghost var plain: map<Key, Entry> // every stored entry that has not been invalidated
    ghost var lastTime: nat

    /** The cache is part of the plain timestamped map. */
    ghost predicate Valid()
      reads this
    {
      && (forall k :: k in entries ==> k in plain && entries[k] == plain[k])
      && (forall k :: k in plain ==> plain[k].time <= lastTime)
    }

    constructor (ttl: nat := 300, maxSize: nat := 10000)
      ensures Valid() && entries == map[] && plain == map[] && this.ttl == ttl && this.maxSize == maxSize
      ensures lastTime == 0
    {
      this.ttl, this.maxSize := ttl, maxSize;
      entries, plain, lastTime := map[], map[], 0;
    }

    /** A hit is the value stored last, still fresh and never invalidated since; misses may be spurious. */
    method Get(key: Key, now: nat) returns (value: Option<string>)
      requires Valid() && lastTime <= now
      modifies this
      ensures Valid() && lastTime == now && plain == old(plain)
      ensures value.Some? ==> key in plain && now - plain[key].time < ttl && plain[key].value == value
      ensures value.None? && key in old(entries) && now - old(entries)[key].time < ttl ==> plain[key].value == None
      ensures entries ==
        if key in old(entries) && !Fresh(old(entries)[key], now, ttl) then old(entries) - {key} else old(entries)
      ensures Next(maxSize, old(entries), Drop(old(entries).Keys - entries.Keys), entries)
    {
      lastTime := now;
      if key !in entries {
        return None;
      }
      var entry := entries[key];
      if now - entry.time < ttl {
        value := entry.value;
      } else {
        entries := entries - {key};
        value := None;
      }
    }

    /** A full cache is evicted first, even if the key is already in it. */
    method Put(key: Key, value: Option<string>, now: nat)
      requires Valid() && lastTime <= now
      modifies this
      ensures Valid() && lastTime == now
      ensures plain == old(plain)[key := Entry(now, value)]
      ensures Next(maxSize, old(entries), Event.Put(key, Entry(now, value)), entries)
    {
      lastTime := now;
      if |entries| >= maxSize {
        Evict();
      }
      ghost var evicted := entries;
      entries := entries[key := Entry(now, value)];
      plain := plain[key := Entry(now, value)];
      assert Room(maxSize, old(entries), evicted) && entries == evicted[key := Entry(now, value)];
    }

    /** Collects the entries in table order, which is unspecified. */
    method Collect() returns (all: seq<(Key, nat)>)
      ensures Lists(entries, all)
    {
      all := [];
      var table, rest := entries, entries;
      while rest != map[]
        invariant rest.Keys <= table.Keys && forall k :: k in rest ==> rest[k] == table[k]
        invariant Distinct(all)
        invariant forall i :: 0 <= i < |all| ==>
          all[i].0 in table && table[all[i].0].time == all[i].1 && all[i].0 !in rest
        invariant forall k :: k in table && k !in rest ==> (k, table[k].time) in all
        decreases |rest|
      {
        var key :| key in rest;
        var was := all;
        all := [(key, rest[key].time)] + all;
        assert forall x :: x in was ==> x in all;
        assert all[0] == (key, table[key].time);
        assert (rest - {key}).Keys == rest.Keys - {key};
        rest := rest - {key};
      }
    }

    /** Removes the entries listed first, one by one. */
    method RemoveFirst(all: seq<(Key, nat)>, toRemove: nat)
      requires Lists(entries, all) && toRemove <= |all|
      modifies this`entries
      ensures entries == old(entries) - KeysOf(all[..toRemove])
      ensures |entries| == |old(entries)| - toRemove
    {
      hide Lists, KeysOf;
      ghost var before := entries;
      NothingDropped(before, all);
      var i := 0;
      while i < toRemove
        invariant i <= toRemove
        invariant entries == before - KeysOf(all[..i])
        invariant |entries| == |before| - i
      {
        DropNext(before, all, i);
        entries := entries - {all[i].0};
        i := i + 1;
      }
    }

    method Evict()
      requires Valid()
      modifies this`entries
      ensures Valid()
      ensures EvictsOldestQuarter(old(entries), entries)
    {
      hide Lists, Sorted, SortByTime, KeysOf;
      ghost var before := entries;
      var all := Collect();
      SortedLists(before, all);
      all := SortByTime(all);
      ListedCount(before, all);
      RemoveFirst(all, |all| / 4);
      FrontQuarterIsOldest(before, all, entries);
    }

    method Remove(key: Key)
      requires Valid()
      modifies this
      ensures Valid() && entries == old(entries) - {key} && plain == old(plain) - {key} && lastTime == old(lastTime)
    {
      entries := entries - {key};
      plain := plain - {key};
    }

    /** Drops the file's entry and the one under the directory part of its name, slash included. */
    method InvalidatePath(expanded: Key)
      requires Valid()
      modifies this
      ensures Valid() && lastTime == old(lastTime)
      ensures entries == old(entries) - InvalidatedKeys(expanded)
      ensures plain == old(plain) - InvalidatedKeys(expanded)
    {
      Remove(expanded);
      var dir := DirectoryPart(expanded);
      if dir.Some? {
        Remove(dir.value);
      }
    }
  }

  /** The name up to and including its last slash. */
  function DirectoryPart(name: Key): (dir: Option<Key>)
    ensures dir.Some? ==> dir.value != "" && dir.value[|dir.value| - 1] == '/'
    ensures dir.None? <==> '/' !in name
    ensures dir.Some? ==> dir.value <= name && '/' !in name[|dir.value|..]
  {
    if name == "" then None
    else if name[|name| - 1] == '/' then Some(name)
    else
      var front := DirectoryPart(name[..|name| - 1]);
      assert name == name[..|name| - 1] + [name[|name| - 1]];
      front
  }

  function InvalidatedKeys(expanded: Key): set<Key> {
    {expanded} + if DirectoryPart(expanded).Some? then {DirectoryPart(expanded).value} else {}
  }

  /**
   Invalidating a file's name drops the entry of its directory exactly if that is stored under a
   name with a slash at the end and the file's name has none.  With a slash at its own end, the name
   drops neither the directory's entry nor its own without the slash.
   */
  lemma ParentIsInvalidatedIffSlashed(dir: Key, file: Key, slash: bool)
    requires '/' !in file
    ensures var dropped := InvalidatedKeys(FullName(dir, file, slash));
      && dir !in dropped
      && (dir + "/" in dropped <==> !slash)
      && (dir + "/" + file in dropped <==> !slash)
  {
    var name := FullName(dir, file, slash);
    LastSlash(dir + "/", file);
    if slash {
      assert name[|name| - 1] == '/';
      assert |dir + "/"| < |name| && |dir + "/" + file| < |name|;
    } else {
      assert name == dir + "/" + file;
    }
  }

  function FullName(dir: Key, file: Key, slash: bool): Key {
    dir + "/" + file + if slash then "/" else ""
  }

  /** There is no other kind of name with a slash in it. */
  lemma EveryNameSplits(name: Key) returns (dir: Key, file: Key, slash: bool)
    requires '/' in name
    ensures '/' !in file && name == FullName(dir, file, slash)
  {
    slash := name[|name| - 1] == '/' && '/' in name[..|name| - 1];
    var front := if slash then name[..|name| - 1] else name;
    var last := DirectoryPart(front).value;
    dir, file := last[..|last| - 1], front[|last|..];
    assert front == last + file && last == dir + "/";
  }

  lemma {:induction false} LastSlash(dir: Key, file: Key)
    requires dir != "" && dir[|dir| - 1] == '/' && '/' !in file
    ensures DirectoryPart(dir + file) == Some(dir)
  {
    if file == "" {
      assert dir + file == dir;
    } else {
      var last := |file| - 1;
      assert (dir + file)[..|dir| + last] == dir + file[..last];
      assert (dir + file)[|dir| + last] == file[last];
      LastSlash(dir, file[..last]);
    }
  }

  // ---------------------------------------------------------------- runs

  datatype Event = Put(key: Key, entry: Entry) | Drop(keys: set<Key>)

  /** The table just before a new entry goes in. */
  ghost predicate Room(maxSize: nat, before: map<Key, Entry>, evicted: map<Key, Entry>) {
    if |before| >= maxSize then EvictsOldestQuarter(before, evicted) else evicted == before
  }

  /** One operation's effect on the table; a get is a drop of at most one expired key. */
  ghost predicate Next(maxSize: nat, before: map<Key, Entry>, e: Event, after: map<Key, Entry>) {
    match e
    case Put(key, entry) => exists evicted :: Room(maxSize, before, evicted) && after == evicted[key := entry]
    case Drop(keys) => after == before - keys
  }

  ghost predicate Run(maxSize: nat, events: seq<Event>, tables: seq<map<Key, Entry>>) {
    && |tables| == |events| + 1 && tables[0] == map[]
    && forall i :: 0 <= i < |events| ==> Next(maxSize, tables[i], events[i], tables[i + 1])
  }

  lemma DropShrinks(before: map<Key, Entry>, keys: set<Key>)
    ensures |before - keys| <= |before|
  {
    assert (before - keys).Keys == before.Keys - keys;
    SubsetSize(before.Keys - keys, before.Keys);
  }

  lemma {:induction false} SubsetSize(a: set<Key>, b: set<Key>)
    requires a <= b
    ensures |a| <= |b|
    decreases a
  {
    if a != {} {
      var x :| x in a;
      SubsetSize(a - {x}, b - {x});
    }
  }

  lemma NextIsBounded(maxSize: nat, before: map<Key, Entry>, e: Event, after: map<Key, Entry>)
    requires Next(maxSize, before, e, after) && |before| <= if maxSize < 4 then 4 else maxSize
    ensures |after| <= if maxSize < 4 then 4 else maxSize
  {
    match e
    case Drop(keys) => DropShrinks(before, keys);
    case Put(key, entry) =>
      var evicted :| Room(maxSize, before, evicted) && after == evicted[key := entry];
      assert after.Keys == evicted.Keys + {key};
  }

  lemma {:induction false} RunIsBounded(maxSize: nat, events: seq<Event>, tables: seq<map<Key, Entry>>, i: nat)
    requires Run(maxSize, events, tables) && i <= |events|
    ensures |tables[i]| <= if maxSize < 4 then 4 else maxSize
  {
    if i > 0 {
      RunIsBounded(maxSize, events, tables, i - 1);
      NextIsBounded(maxSize, tables[i - 1], events[i - 1], tables[i]);
    }
  }

  ghost predicate NeverExceeds(maxSize: nat) {
    forall events, tables, i :: Run(maxSize, events, tables) && 0 <= i <= |events| ==> |tables[i]| <= maxSize
  }

  /** The size limit holds over every run exactly when it is at least 4: a smaller quarter is nothing. */
  lemma LimitHoldsIffAtLeastFour(maxSize: nat)
    ensures NeverExceeds(maxSize) <==> maxSize >= 4
  {
    if maxSize >= 4 {
      forall events, tables, i | Run(maxSize, events, tables) && 0 <= i <= |events|
        ensures |tables[i]| <= maxSize
      {
        RunIsBounded(maxSize, events, tables, i);
      }
    } else {
      var events, tables := FillUp(maxSize, maxSize + 1);
      assert |tables[maxSize + 1]| > maxSize;
    }
  }

  function FilledTo(n: nat): map<Key, Entry> {
    map k | k in NumberedKeys(n) :: Entry(0, None)
  }

  function NumberedKeys(n: nat): (keys: set<Key>)
    ensures |keys| == n && forall k :: k in keys ==> |k| < n
  {
    if n == 0 then {} else NumberedKeys(n - 1) + {seq(n - 1, i => 'k')}
  }

  /** With a limit below 4, putting new keys into the empty cache evicts nothing on the way past it. */
  lemma {:induction false} FillUp(maxSize: nat, n: nat) returns (events: seq<Event>, tables: seq<map<Key, Entry>>)
    requires maxSize < 4 && n <= maxSize + 1
    ensures Run(maxSize, events, tables) && |events| == n && tables[n] == FilledTo(n) && |tables[n]| == n
  {
    hide Next;
    assert FilledTo(n).Keys == NumberedKeys(n);
    if n == 0 {
      events, tables := [], [map[]];
      assert FilledTo(0) == map[];
    } else {
      events, tables := FillUp(maxSize, n - 1);
      var e := Event.Put(seq(n - 1, i => 'k'), Entry(0, None));
      FillOne(maxSize, n);
      events, tables := events + [e], tables + [FilledTo(n)];
    }
  }

  lemma FillOne(maxSize: nat, n: nat)
    requires maxSize < 4 && 0 < n <= maxSize + 1
    ensures Next(maxSize, FilledTo(n - 1), Event.Put(seq(n - 1, i => 'k'), Entry(0, None)), FilledTo(n))
  {
    var before := FilledTo(n - 1);
    assert before.Keys == NumberedKeys(n - 1);
    assert Room(maxSize, before, before);
    assert FilledTo(n) == before[seq(n - 1, i => 'k') := Entry(0, None)];
  }
}
