/** storage/file_stm.h and storage/file_stm.cc: a file handle that opens on
  * first access, can be closed temporarily by an LRU cache of open files and is
  * reopened by the next access, together with the FIFO list of waiters the cache
  * and the handle use to hand work over to each other.
  *
  * Futures are run as sequential steps: an operation whose future would wait
  * returns the ticket it waits on, and the continuation that runs once the
  * ticket is served is a method of its own (ResumeAfterEviction,
  * ResumeAfterOpen). */
module FileStm {
  import opened Common

  // ------------------------------------------------------------------ open flags

  /** ss::open_flags::create, which is O_CREAT on Linux. */
  const Create: bv32 := 0x40

  /** make_reopen_flags: the create bit is cleared, every other bit is kept. */
  function MakeReopenFlags(flags: bv32): (r: bv32)
    ensures r & Create == 0
    ensures r & !Create == flags & !Create
  {
    (flags & Create) ^ flags
  }

  /** Reopening a reopened file uses the same flags. */
  lemma ReopenFlagsIdempotent(flags: bv32)
    ensures MakeReopenFlags(MakeReopenFlags(flags)) == MakeReopenFlags(flags)
  {
  }

  datatype OpenArgs = OpenArgs(path: string, flags: bv32)

  function ReopenArgs(a: OpenArgs): OpenArgs
  {
    OpenArgs(a.path, MakeReopenFlags(a.flags))
  }

  // ------------------------------------------------------------ transition table

  datatype StateKind = PreOpenKind | OpenKind | EvictKind | CloseKind
  datatype Event = Access | Close | Evict

  /** The transition table at the head of file_stm.h. The two pairs the table has
    * no row for (evicting a file that is not open) leave the state as it is;
    * the operation fails instead. */
  function Transition(s: StateKind, e: Event): (t: StateKind)
    ensures s == CloseKind ==> t == CloseKind
    ensures e == Close ==> t == CloseKind
    ensures e == Access && s != CloseKind ==> t == OpenKind
    ensures t == EvictKind && s != EvictKind ==> s == OpenKind && e == Evict
    ensures e == Evict && s != OpenKind ==> t == s
  {
    match (s, e)
    case (CloseKind, _) => CloseKind
    case (_, Close) => CloseKind
    case (_, Access) => OpenKind
    case (OpenKind, Evict) => EvictKind
    case (_, Evict) => s
  }

  // ------------------------------------------------------------------- wait_list

  /** details::wait_list<T>: waiters are numbered in the order they called
    * wait(); waiter `t` has been served with `results[t]` once
    * `t < |results|`. */
  class WaitList<T> {
    /** The waiters not yet served, oldest first. */
    var pending: seq<nat>
    /** results[t]: the value waiter t was served with. */
    var results: seq<T>
    /** The number of wait() calls so far. */
    var issued: nat

    /** The waiters are served strictly in the order they arrived. */
    ghost predicate Valid()
      reads this
    {
      && |results| + |pending| == issued
      && forall i :: 0 <= i < |pending| ==> pending[i] == |results| + i
    }

    constructor()
      ensures Valid() && pending == [] && results == [] && issued == 0
    {
      pending := [];
      results := [];
      issued := 0;
    }

    /** What trigger(v) does: the oldest waiter, if there is one, is served
      * with `v` and leaves the list. */
    twostate predicate ServedOldest(v: T)
      reads this
    {
      && issued == old(issued)
      && (old(pending) == [] ==> pending == [] && results == old(results))
      && (old(pending) != [] ==> pending == old(pending)[1..] && results == old(results) + [v])
    }

    /** wait(): a new waiter joins at the back and is given the next ticket. */
    method Wait() returns (t: nat)
      requires Valid()
      modifies this
      ensures Valid() && t == old(issued) && issued == old(issued) + 1
      ensures pending == old(pending) + [t] && results == old(results)
    {
      t := issued;
      pending := pending + [t];
      issued := issued + 1;
    }

    /** trigger(v): serves the oldest waiter with `v`; nothing on an empty
      * list. */
    method Trigger(v: T)
      requires Valid()
      modifies this
      ensures Valid() && ServedOldest(v)
      ensures old(pending) != [] ==> |results| == old(pending)[0] + 1 && results[old(pending)[0]] == v
    {
      if pending != [] {
        results := results + [v];
        pending := pending[1..];
      }
    }

    /** size(): the waiters not yet served, which is the number of wait()
      * calls minus the number of waiters served. */
    function Size(): (n: nat)
      requires Valid()
      reads this
      ensures n == issued - |results|
    {
      |pending|
    }

    /** trigger_all(v): every pending waiter is served with `v`, oldest first. */
    method TriggerAll(v: T)
      requires Valid()
      modifies this
      ensures Valid() && pending == [] && issued == old(issued)
      ensures results == old(results) + seq(|old(pending)|, _ => v)
    {
      ghost var n := |pending|;
      while pending != []
        invariant Valid() && issued == old(issued) && |pending| <= n
        invariant results == old(results) + seq(n - |pending|, _ => v)
        decreases |pending|
      {
        ghost var served := results;
        ghost var k := n - |pending|;
        Trigger(v);
        assert results == served + [v];
        assert seq(k + 1, _ => v) == seq(k, _ => v) + [v];
      }
    }
  }

  // ------------------------------------------------------------------- the cache

  /** `s` with every occurrence of `e` unlinked, the rest in order. */
  function Remove(s: seq<Entry>, e: Entry): (r: seq<Entry>)
    ensures forall i :: 0 <= i < |r| ==> r[i] in s && r[i] != e
    ensures forall i :: 0 <= i < |s| && s[i] != e ==> s[i] in r
    ensures |r| <= |s|
    ensures e !in s ==> r == s
  {
    if s == [] then []
    else if s[0] == e then Remove(s[1..], e)
    else [s[0]] + Remove(s[1..], e)
  }

  /** The files whose eviction callbacks the entries of `s` hold. */
  ghost function Owners(s: seq<Entry>): set<object>
    reads s
  {
    set i | 0 <= i < |s| && s[i].onEvict != null :: s[i].onEvict as object
  }

  /** The file whose callback the front of `s` holds, if any. */
  ghost function FrontOwner(s: seq<Entry>): set<object>
    reads s
  {
    if s != [] && s[0].onEvict != null then {s[0].onEvict} else {}
  }

  /** details::st_open, also the entry of open_file_cache. */
  class Entry {
    var args: OpenArgs
    /** Whether `file` holds a descriptor; it is empty while the file opens. */
    var hasFile: bool
    /** The number of lock guards inside the entry's gate. */
    var gate: nat
    /** _on_evict: the owner's ev_evict, set once the file has opened; `null`
      * is the empty std::function. */
    var onEvict: FileStmImpl?
    /** _wait_open. */
    const waitOpen: WaitList<()>
    /** The cache the owning file_stm was created with. */
    ghost const home: OpenFileCache

    constructor(args: OpenArgs, home: OpenFileCache)
      ensures this.args == args && !hasFile && gate == 0 && onEvict == null && this.home == home
      ensures fresh(waitOpen) && waitOpen.Valid() && waitOpen.pending == [] && waitOpen.results == []
    {
      this.args := args;
      hasFile := false;
      gate := 0;
      onEvict := null;
      waitOpen := new WaitList();
      this.home := home;
    }

    /** Calls `_on_evict()`: the empty function throws std::bad_function_call,
      * a set one runs its file's ev_evict. */
    method FireOnEvict() returns (r: Result<(), AccessError>)
      requires onEvict != null ==> onEvict.cache.Valid()
      modifies if onEvict != null then {onEvict, onEvict.cache} else {}
      ensures onEvict == null ==> r == Err(BadFunctionCall)
      ensures onEvict != null ==> onEvict.cache.Valid() && onEvict.EvictedBy(r)
    {
      if onEvict == null {
        return Err(BadFunctionCall);
      }
      r := onEvict.EvEvict();
    }
  }

  /** What the future returned by put stands for: ready at once, the eviction
    * of the LRU front whose callback has to run first, or a wait on the
    * eviction list. */
  datatype PutOutcome = Admitted | EvictFront(candidate: Entry) | AwaitEviction(ticket: nat)

  /** open_file_cache: the LRU list of opened files, least recently used first,
    * and the list of fibers waiting for an entry to become evictable. */
  class OpenFileCache {
    /** The maximum size; 0 is unbounded. */
    const limit: nat
    var lru: seq<Entry>
    const eviction: WaitList<Entry>

    /** Every linked entry was made for this cache, and one that holds an
      * eviction callback has a descriptor and belongs to a file whose state
      * is that entry; the entries handed to eviction waiters were made for
      * this cache. */
    ghost predicate Valid()
      reads this, eviction, lru, eviction.results, Owners(lru)
    {
      && eviction.Valid()
      && (forall i :: 0 <= i < |lru| ==> Linked(lru[i]))
      && (forall j :: 0 <= j < |eviction.results| ==> Belongs(eviction.results[j]))
    }

    ghost predicate Belongs(e: Entry)
      reads e
    {
      e.home == this && (e.onEvict != null ==> e.onEvict.cache == this)
    }

    ghost predicate Linked(e: Entry)
      reads e, if e.onEvict != null then {e.onEvict} else {}
    {
      Belongs(e) && (e.onEvict != null ==> e.hasFile && e.onEvict.state == Opened(e))
    }

    constructor(limit: nat)
      requires limit < 0x1_0000_0000
      ensures this.limit == limit && lru == [] && fresh(eviction)
      ensures eviction.pending == [] && eviction.results == [] && Valid()
    {
      this.limit := limit;
      lru := [];
      eviction := new WaitList();
    }

    /** empty(). */
    function Empty(): (b: bool)
      reads this
      ensures b <==> |lru| == 0
    {
      lru == []
    }

    /** is_full(): a limit of 0 never fills; otherwise full once the list has
      * `limit` entries. */
    function IsFull(): (b: bool)
      reads this
      ensures limit == 0 ==> !b
      ensures b <==> limit != 0 && |lru| >= limit
    {
      limit != 0 && |lru| >= limit
    }

    /** is_candidate(e): `e` is the least recently used entry. An entry that
      * is not linked is never the candidate. */
    function IsCandidate(e: Entry): (b: bool)
      reads this
      ensures b ==> e in lru
      ensures b <==> |lru| > 0 && lru[0] == e
    {
      |lru| > 0 && lru[0] == e
    }

    /** eviction_awaited(): some fiber waits for an eviction. */
    function EvictionAwaited(): (b: bool)
      requires eviction.Valid()
      reads this, eviction
      ensures b <==> eviction.issued > |eviction.results|
    {
      eviction.Size() != 0
    }

    /** The entry's hook is unlinked: it leaves the list, the rest keeps its
      * order. */
    method Unlink(e: Entry)
      requires Valid()
      modifies this
      ensures Valid() && lru == Remove(old(lru), e)
    {
      lru := Remove(lru, e);
    }

    /** touch(e): `e` moves to the most recently used end; if the cache is then
      * full and its front is not in use, the oldest eviction waiter is served
      * with the front. */
    method Touch(e: Entry)
      requires Valid() && Linked(e)
      modifies this, eviction
      ensures Valid() && lru == Remove(old(lru), e) + [e]
      ensures IsFull() && lru[0].gate == 0 ==> eviction.ServedOldest(lru[0])
      ensures !(IsFull() && lru[0].gate == 0) ==> unchanged(eviction)
    {
      lru := Remove(lru, e) + [e];
      if IsFull() {
        var candidate := lru[0];
        if candidate.gate == 0 {
          eviction.Trigger(candidate);
        }
      }
    }

    /** The effect of put(e) when `evicts` says whether it evicts: `e` joins at
      * the most recently used end; an evicting put names the front for eviction
      * at once if it is unused, and otherwise waits on the eviction list. */
    twostate predicate PutBy(new e: Entry, evicts: bool, new o: PutOutcome)
      reads this, eviction, lru
    {
      && lru == old(lru) + [e]
      && (!evicts ==> o == Admitted && unchanged(eviction))
      && (evicts && lru[0].gate == 0 ==> o == EvictFront(lru[0]) && unchanged(eviction))
      && (evicts && lru[0].gate != 0 ==>
            && o == AwaitEviction(old(eviction.issued)) && eviction.issued == old(eviction.issued) + 1
            && eviction.pending == old(eviction.pending) + [old(eviction.issued)]
            && eviction.results == old(eviction.results))
    }

    /** put(e), as written: it evicts whenever the cache is full once `e` has
      * joined, so the front can be `e` itself (an empty cache of limit 1). */
    method Put(e: Entry) returns (o: PutOutcome)
      requires Valid() && Linked(e) && e !in lru
      modifies this, eviction
      ensures Valid() && PutBy(e, IsFull(), o)
    {
      lru := lru + [e];
      o := Admitted;
      if IsFull() {
        var candidate := lru[0];
        if candidate.gate == 0 {
          o := EvictFront(candidate);
        } else {
          var t := eviction.Wait();
          o := AwaitEviction(t);
        }
      }
    }

    /** put(e) as evidently intended: the same, except that the entry being
      * admitted is never its own eviction candidate, so only a full cache with
      * another entry at its front evicts. */
    method PutKeepingNewcomer(e: Entry) returns (o: PutOutcome)
      requires Valid() && Linked(e) && e !in lru
      modifies this, eviction
      ensures Valid() && PutBy(e, IsFull() && old(lru) != [], o)
      ensures o.EvictFront? ==> o.candidate == old(lru)[0] != e
    {
      lru := lru + [e];
      o := Admitted;
      if IsFull() && lru[0] != e {
        var candidate := lru[0];
        if candidate.gate == 0 {
          o := EvictFront(candidate);
        } else {
          var t := eviction.Wait();
          o := AwaitEviction(t);
        }
      }
    }

    /** evict(e): requires `e` to be unused; unlinks it and serves the oldest
      * eviction waiter with it. */
    method Evict(e: Entry)
      requires Valid() && Belongs(e) && e.gate == 0
      modifies this, eviction
      ensures Valid() && lru == Remove(old(lru), e)
      ensures eviction.ServedOldest(e)
    {
      lru := Remove(lru, e);
      eviction.Trigger(e);
    }
  }

  /** An empty cache of limit 1 names the entry it admits as its own eviction
    * candidate, whose `_on_evict` is still the empty function. */
  method SelfEvictionOnFirstPut() returns (o: PutOutcome, e: Entry, r: Result<(), AccessError>)
    ensures o == EvictFront(e) && e.onEvict == null && r == Err(BadFunctionCall)
  {
    var cache := new OpenFileCache(1);
    e := new Entry(OpenArgs("file1", Create), cache);
    o := cache.Put(e);
    r := e.FireOnEvict();
  }

  /** With the corrected put the same first entry is admitted. */
  method NoSelfEvictionOnFirstPut() returns (o: PutOutcome)
    ensures o == Admitted
  {
    var cache := new OpenFileCache(1);
    var e := new Entry(OpenArgs("file1", Create), cache);
    o := cache.PutKeepingNewcomer(e);
  }

  // -------------------------------------------------------------- file_stm::impl

  datatype FileState = PreOpen(args: OpenArgs) | Opened(entry: Entry) | Evicted(reopen: OpenArgs) | Closed

  datatype AccessError =
    | FileNotOpened    // "file is not opened"
    | BadFunctionCall  // the empty _on_evict was called
    | BadVariantAccess // std::get<st_open> on another state
    | BrokenPromise    // the waited-on list was destroyed
    | CantEvict        // "can't evict file from cache, file not opened"

  /** What the future returned by ev_access stands for. */
  datatype AccessResult =
    | Granted(guard: Entry)
    | WaitingForEviction(ticket: nat)
    | WaitingForOpen(entry: Entry, ticket: nat)
    | Failed(error: AccessError)

  /** How the open of entry `e` of `f` with arguments `a` completed: `f` holds a
    * guard on `e`, whose flags are the reopen flags whether or not the open
    * succeeded; a successful open gives `e` its descriptor and `f`'s eviction
    * callback and serves every fiber waiting for the open. */
  ghost predicate Completed(f: FileStmImpl, e: Entry, a: OpenArgs, openOk: bool, r: AccessResult)
    reads f`state, e`args, e`hasFile, e`onEvict, e.waitOpen`pending
  {
    && r == Granted(e) && f.state == Opened(e) && e.args == ReopenArgs(a)
    && (openOk ==> e.hasFile && e.onEvict == f && e.waitOpen.pending == [])
    && (!openOk ==> !e.hasFile && e.onEvict == null)
  }

  /** What of a cache an open depends on and may change. */
  datatype CacheSnapshot = CacheSnapshot(
    lru: seq<Entry>, pending: seq<nat>, results: seq<Entry>, issued: nat,
    frontGate: nat, frontArgs: OpenArgs, owner: FileStmImpl?, ownerState: FileState)

  ghost function Snapshot(c: OpenFileCache): (s: CacheSnapshot)
    reads c, c.eviction, c.lru, FrontOwner(c.lru)
    ensures s.lru == c.lru && s.issued == c.eviction.issued
  {
    var front := if c.lru != [] then c.lru[0].gate else 0;
    var args := if c.lru != [] then c.lru[0].args else OpenArgs([], 0);
    var owner := if c.lru != [] then c.lru[0].onEvict else null;
    CacheSnapshot(c.lru, c.eviction.pending, c.eviction.results, c.eviction.issued,
                  front, args, owner, if owner != null then owner.state else Closed)
  }

  /** The effect of moving `f` from st_pre_open or st_evict to st_open with
    * arguments `a`, on a cache that was `s` before. A new entry is put into
    * the cache. If the cache is then full with another entry at its front,
    * that entry's file is evicted first when the entry is unused (a front
    * without a callback throws instead), and otherwise `f` waits for an
    * eviction. An admitted entry completes its open. The front's file changes
    * only when it is evicted. The entries' gates are not read, so dropping a
    * guard keeps this effect. */
  ghost predicate OpenedFresh(c: OpenFileCache, f: FileStmImpl, a: OpenArgs, openOk: bool,
                              r: AccessResult, s: CacheSnapshot)
    reads c`lru, c.eviction`pending, c.eviction`results, c.eviction`issued, f`state
    reads (if f.state.Opened? then {f.state.entry} else {})`args
    reads (if f.state.Opened? then {f.state.entry} else {})`hasFile
    reads (if f.state.Opened? then {f.state.entry} else {})`onEvict
    reads (if f.state.Opened? then {f.state.entry.waitOpen} else {})`pending
    reads (if s.owner != null then {s.owner} else {})`state
  {
    var before := s.lru;
    var evicts := c.limit != 0 && |before| + 1 >= c.limit && before != [];
    var kept := c.eviction.results == s.results && c.eviction.issued == s.issued;
    var owner := s.owner;
    && f.cache == c && f.state.Opened? && f.state.entry !in before && f.state.entry.home == c
    && var e := f.state.entry;
    && (!evicts ==>
          && c.lru == before + [e] && c.eviction.pending == s.pending && kept
          && Completed(f, e, a, openOk, r)
          && (owner != null ==> owner.state == s.ownerState))
    && (evicts && s.frontGate != 0 ==>
          && r == WaitingForEviction(s.issued)
          && c.lru == before + [e] && e.args == a && !e.hasFile
          && c.eviction.pending == s.pending + [s.issued] && c.eviction.results == s.results
          && (owner != null ==> owner.state == s.ownerState))
    && (evicts && s.frontGate == 0 && owner == null ==>
          && r == Failed(BadFunctionCall)
          && c.lru == before + [e] && e.args == a && !e.hasFile
          && c.eviction.pending == s.pending && kept)
    && (evicts && s.frontGate == 0 && owner != null ==>
          && owner.state == Evicted(ReopenArgs(s.frontArgs))
          && c.lru == Remove(before + [e], before[0]) && c.eviction.pending == s.pending && kept
          && Completed(f, e, a, openOk, r))
  }

  class FileStmImpl {
    var state: FileState
    const cache: OpenFileCache

    /** An opened file's entry was made for the file's cache, has a
      * well-formed list of open waiters, and holds this file's eviction
      * callback exactly when it has a descriptor. */
    ghost predicate Valid()
      reads this, if state.Opened? then {state.entry, state.entry.waitOpen} else {}
    {
      state.Opened? ==>
        var e := state.entry;
        && e.home == cache && e.waitOpen.Valid()
        && (e.onEvict == null || e.onEvict == this)
        && (e.hasFile <==> e.onEvict == this)
    }

    function Kind(): StateKind
      reads this
    {
      match state
      case PreOpen(_) => PreOpenKind
      case Opened(_) => OpenKind
      case Evicted(_) => EvictKind
      case Closed => CloseKind
    }

    /** The effect of ev_evict: an opened file moves to st_evict with reopen
      * flags and leaves the cache; any other state fails and nothing
      * changes. */
    twostate predicate EvictedBy(new r: Result<(), AccessError>)
      reads this, cache
    {
      if old(state).Opened? && old(state.entry.hasFile) then
        && r == Ok(())
        && state == Evicted(ReopenArgs(old(state.entry.args)))
        && cache.lru == Remove(old(cache.lru), old(state.entry))
      else
        r == Err(CantEvict) && state == old(state) && cache.lru == old(cache.lru)
    }

    /** file_stm::impl's constructor: the file starts in st_pre_open. */
    constructor(path: string, flags: bv32, cache: OpenFileCache)
      ensures state == PreOpen(OpenArgs(path, flags)) && this.cache == cache && Valid()
    {
      state := PreOpen(OpenArgs(path, flags));
      this.cache := cache;
    }

    /** ev_evict(). Replacing the st_open state destroys the entry, whose hook
      * unlinks itself. */
    method EvEvict() returns (r: Result<(), AccessError>)
      requires cache.Valid()
      modifies this, cache
      ensures cache.Valid() && EvictedBy(r)
      ensures r.Ok? ==> Valid() && Kind() == Transition(old(Kind()), Evict)
    {
      if state.Opened? && state.entry.hasFile {
        var e := state.entry;
        cache.Unlink(e);
        state := Evicted(ReopenArgs(e.args));
        return Ok(());
      }
      return Err(CantEvict);
    }

    /** ev_close(): always ends closed. An opened file leaves the cache with
      * its entry. The candidate test after the readers are gone is asked of
      * the copy `std::move(*s)` made, whose hook was never linked (an
      * intrusive hook is not copied), so it never holds: nothing is evicted
      * and no eviction waiter is served (see Findings; EvCloseEvicting is the
      * close that tests the entry itself). */
    method EvClose()
      requires cache.Valid() && Valid()
      modifies this, cache, if state.Opened? then {state.entry} else {}
      ensures cache.Valid() && Valid() && state == Closed
      ensures Kind() == Transition(old(Kind()), Close)
      ensures !old(state).Opened? ==> cache.lru == old(cache.lru)
      ensures old(state).Opened? ==> cache.lru == Remove(old(cache.lru), old(state.entry))
      ensures unchanged(cache.eviction)
    {
      if state.Opened? {
        var e := state.entry;
        var moved: Entry? := null;
        if e.hasFile {
          e.gate := 0;
          moved := new Entry(e.args, cache);
        }
        // `_state = st_close{}` destroys the entry, whose hook unlinks itself.
        cache.Unlink(e);
        var candidate := moved != null && cache.IsFull() && cache.IsCandidate(moved);
        assert !candidate;
      }
      state := Closed;
    }

    /** ev_close() testing the closed entry itself: once its readers are
      * gone, the entry is evicted if it is the candidate of a full cache,
      * which serves the oldest eviction waiter with it; it leaves the cache
      * either way. */
    method EvCloseEvicting()
      requires cache.Valid() && Valid()
      modifies this, cache, cache.eviction, if state.Opened? then {state.entry} else {}
      ensures cache.Valid() && Valid() && state == Closed
      ensures Kind() == Transition(old(Kind()), Close)
      ensures !old(state).Opened? ==> cache.lru == old(cache.lru) && unchanged(cache.eviction)
      ensures old(state).Opened? ==> cache.lru == Remove(old(cache.lru), old(state.entry))
      ensures old(state).Opened? && old(state.entry.hasFile) && old(cache.IsFull() && cache.IsCandidate(state.entry)) ==>
        cache.eviction.ServedOldest(old(state.entry))
      ensures old(state).Opened? && !(old(state.entry.hasFile) && old(cache.IsFull() && cache.IsCandidate(state.entry))) ==>
        unchanged(cache.eviction)
    {
      if state.Opened? {
        var e := state.entry;
        if e.hasFile {
          e.gate := 0;
          if cache.IsFull() && cache.IsCandidate(e) {
            cache.Evict(e);
          }
        }
        cache.Unlink(e);
      }
      state := Closed;
    }

    /** The continuation of state_transition_to_open once the file is open
      * (`openOk`) or failed to open. */
    method CompleteOpen(a: OpenArgs, openOk: bool) returns (r: AccessResult)
      requires cache.Valid() && Valid()
      modifies if state.Opened? then {state.entry, state.entry.waitOpen} else {}
      ensures cache.Valid() && Valid() && state == old(state)
      ensures !state.Opened? ==> r == Failed(BadVariantAccess)
      ensures state.Opened? ==> state.entry.gate == old(state.entry.gate) + 1
      ensures state.Opened? && old(state.entry.args) == a && !old(state.entry.hasFile) ==>
        Completed(this, state.entry, a, openOk, r)
    {
      if !state.Opened? {
        return Failed(BadVariantAccess);
      }
      var e := state.entry;
      e.args := ReopenArgs(e.args);
      if openOk {
        e.hasFile := true;
        e.onEvict := this;
        e.waitOpen.TriggerAll(());
      }
      e.gate := e.gate + 1;
      r := Granted(e);
    }

    /** state_transition_to_open(st): the file moves to st_open with a new
      * entry, which is then put into the cache. */
    method StateTransitionToOpen(a: OpenArgs) returns (e: Entry, o: PutOutcome)
      requires cache.Valid() && !state.Opened?
      modifies this, cache, cache.eviction
      ensures fresh(e) && fresh(e.waitOpen) && state == Opened(e) && Valid() && cache.Valid()
      ensures e.args == a && !e.hasFile && e.gate == 0 && e.onEvict == null && e.home == cache
      ensures cache.PutBy(e, cache.IsFull() && old(cache.lru) != [], o)
      ensures o.EvictFront? ==> o.candidate == old(cache.lru)[0]
    {
      e := new Entry(a, cache);
      state := Opened(e);
      o := cache.PutKeepingNewcomer(e);
    }

    /** The pre-open and evicted cases of ev_access: a fresh open with
      * arguments `a` after any eviction the put calls for. */
    method OpenFresh(a: OpenArgs, openOk: bool) returns (r: AccessResult)
      requires cache.Valid() && Valid() && !state.Opened?
      modifies this, cache, cache.eviction, FrontOwner(cache.lru)
      ensures cache.Valid() && Valid()
      ensures OpenedFresh(cache, this, a, openOk, r, old(Snapshot(cache)))
      ensures state.Opened? && fresh(state.entry)
      ensures r.Granted? ==> r.guard.gate == 1
    {
      ghost var before := cache.lru;
      var e, o := StateTransitionToOpen(a);
      match o {
        case Admitted =>
          r := CompleteOpen(a, openOk);
        case EvictFront(c) =>
          assert cache.Linked(cache.lru[0]);
          var cb := c.FireOnEvict();
          if cb.Err? {
            r := Failed(cb.error);
          } else {
            r := CompleteOpen(a, openOk);
          }
        case AwaitEviction(t) =>
          r := WaitingForEviction(t);
      }
    }

    /** ev_access() on an opened file with a descriptor: the entry is touched
      * and a guard taken on it. */
    method AccessOpened(e: Entry) returns (r: AccessResult)
      requires cache.Valid() && Valid() && state == Opened(e) && e.hasFile
      modifies cache, cache.eviction, e
      ensures cache.Valid() && Valid() && state == old(state)
      ensures r == Granted(e) && e.gate == old(e.gate) + 1
      ensures e.args == old(e.args) && e.hasFile && e.onEvict == old(e.onEvict)
      ensures cache.lru == Remove(old(cache.lru), e) + [e]
      ensures var front := cache.lru[0];
        && (cache.IsFull() && old(front.gate) == 0 ==> cache.eviction.ServedOldest(front))
        && (!(cache.IsFull() && old(front.gate) == 0) ==> unchanged(cache.eviction))
    {
      assert cache.Linked(e);
      cache.Touch(e);
      e.gate := e.gate + 1;
      r := Granted(e);
    }

    /** ev_access() on a file that is still opening: the caller waits for the
      * open. */
    method AwaitOpen(e: Entry) returns (r: AccessResult)
      requires Valid() && state == Opened(e)
      modifies e.waitOpen
      ensures Valid() && r == WaitingForOpen(e, old(e.waitOpen.issued))
      ensures e.waitOpen.pending == old(e.waitOpen.pending) + [old(e.waitOpen.issued)]
    {
      var t := e.waitOpen.Wait();
      r := WaitingForOpen(e, t);
    }

    /** ev_access(): a closed file fails; an opened file is touched and a
      * guard taken, or, while it is still opening, the caller waits for the
      * open; a pre-open or evicted file is opened afresh. */
    method EvAccess(openOk: bool) returns (r: AccessResult)
      requires cache.Valid() && Valid()
      modifies this, cache, cache.eviction, FrontOwner(cache.lru)
      modifies if state.Opened? then {state.entry, state.entry.waitOpen} else {}
      ensures cache.Valid() && Valid()
      ensures r.Failed? || Kind() == Transition(old(Kind()), Access)
      ensures old(state).Closed? ==>
        r == Failed(FileNotOpened) && state == Closed && unchanged(cache) && unchanged(cache.eviction)
      ensures old(state).Opened? && old(state.entry.hasFile) ==>
        var e := old(state.entry);
        && r == Granted(e) && state == old(state) && e.gate == old(e.gate) + 1
        && cache.lru == Remove(old(cache.lru), e) + [e]
        && var front := cache.lru[0];
           && (cache.IsFull() && old(front.gate) == 0 ==> cache.eviction.ServedOldest(front))
           && (!(cache.IsFull() && old(front.gate) == 0) ==> unchanged(cache.eviction))
      ensures old(state).Opened? && !old(state.entry.hasFile) ==>
        var e := old(state.entry);
        && r == WaitingForOpen(e, old(e.waitOpen.issued)) && state == old(state)
        && e.waitOpen.pending == old(e.waitOpen.pending) + [old(e.waitOpen.issued)]
        && unchanged(cache) && unchanged(cache.eviction)
      ensures old(state).PreOpen? ==> OpenedFresh(cache, this, old(state.args), openOk, r, old(Snapshot(cache)))
      ensures old(state).Evicted? ==> OpenedFresh(cache, this, old(state.reopen), openOk, r, old(Snapshot(cache)))
      ensures (old(state).PreOpen? || old(state).Evicted?) ==>
        state.Opened? && fresh(state.entry) && (r.Granted? ==> r.guard.gate == 1)
    {
      match state {
        case Closed =>
          r := Failed(FileNotOpened);
        case Opened(e) =>
          if e.hasFile {
            r := AccessOpened(e);
          } else {
            r := AwaitOpen(e);
          }
        case PreOpen(a) =>
          r := OpenFresh(a, openOk);
        case Evicted(a) =>
          r := OpenFresh(a, openOk);
      }
    }

    /** The continuation of an access whose put waited: the entry the waiter
      * was served with is evicted through its callback, then the open
      * completes. */
    method ResumeAfterEviction(c: Entry, a: OpenArgs, openOk: bool) returns (cb: Result<(), AccessError>, r: AccessResult)
      requires cache.Valid() && Valid() && cache.Belongs(c)
      requires c.onEvict != this
      modifies if c.onEvict != null then {c.onEvict, cache} else {}
      modifies if state.Opened? then {state.entry, state.entry.waitOpen} else {}
      ensures cache.Valid() && Valid() && state == old(state)
      ensures c.onEvict == null ==> cb == Err(BadFunctionCall)
      ensures c.onEvict != null ==> c.onEvict.EvictedBy(cb)
      ensures cb.Err? ==> r == Failed(cb.error)
      ensures cb.Ok? && !state.Opened? ==> r == Failed(BadVariantAccess)
      ensures cb.Ok? && state.Opened? && old(state.entry.args) == a && !old(state.entry.hasFile) ==>
        Completed(this, state.entry, a, openOk, r)
    {
      cb := c.FireOnEvict();
      if cb.Err? {
        return cb, Failed(cb.error);
      }
      r := CompleteOpen(a, openOk);
    }

    /** The continuation of an access that waited for the file to open; it
      * runs once waiter `ticket` of `w` was served or `w` is gone. A served
      * waiter takes a guard on the file's current entry or fails if the file
      * is no longer open; a waiter whose entry was destroyed sees a broken
      * promise. */
    method ResumeAfterOpen(w: Entry, ticket: nat) returns (r: AccessResult)
      requires cache.Valid() && Valid()
      requires ticket < |w.waitOpen.results| || state != Opened(w)
      modifies if state.Opened? then {state.entry} else {}
      ensures cache.Valid() && Valid() && state == old(state)
      ensures ticket < |w.waitOpen.results| && state.Opened? ==>
        r == Granted(state.entry) && state.entry.gate == old(state.entry.gate) + 1
      ensures ticket < |w.waitOpen.results| && !state.Opened? ==> r == Failed(FileNotOpened)
      ensures ticket >= |w.waitOpen.results| ==> r == Failed(BrokenPromise)
    {
      if ticket >= |w.waitOpen.results| {
        return Failed(BrokenPromise);
      }
      if state.Opened? {
        var p := state.entry;
        p.gate := p.gate + 1;
        return Granted(p);
      }
      r := Failed(FileNotOpened);
    }
  }

  /** ~lock_guard(): the guard leaves the entry's gate; if that leaves a
    * linked entry unused while it is the eviction candidate and a fiber waits
    * for an eviction, the entry is evicted. */
  method ReleaseGuard(e: Entry, cache: OpenFileCache)
    requires cache.Valid() && cache.Belongs(e) && e.gate > 0
    modifies e, cache, cache.eviction
    ensures cache.Valid() && e.gate == old(e.gate) - 1
    ensures e.args == old(e.args) && e.hasFile == old(e.hasFile) && e.onEvict == old(e.onEvict)
    ensures var evicts := e in old(cache.lru) && e.gate == 0 && old(cache.EvictionAwaited()) && old(cache.IsCandidate(e));
      && (evicts ==> cache.lru == Remove(old(cache.lru), e) && cache.eviction.ServedOldest(e))
      && (!evicts ==> cache.lru == old(cache.lru) && unchanged(cache.eviction))
  {
    e.gate := e.gate - 1;
    if e in cache.lru && e.gate == 0 && cache.EvictionAwaited() && cache.IsCandidate(e) {
      cache.Evict(e);
    }
  }

  /** What the future open_file_dma returns stands for. */
  datatype OpenOutcome = Ready | Pending(wait: AccessResult) | OpenFailed(error: AccessError)

  /** The eager part of open_file_dma: one access of the file, whose guard
    * is dropped at once. */
  method AccessOnce(f: FileStmImpl, openOk: bool) returns (r: AccessResult, o: OpenOutcome)
    requires f.cache.Valid() && f.Valid() && f.state.PreOpen?
    modifies f, f.cache, f.cache.eviction, FrontOwner(f.cache.lru)
    ensures f.Valid() && f.cache.Valid()
    ensures o == (if r.Granted? then Ready else if r.Failed? then OpenFailed(r.error) else Pending(r))
    ensures r.Granted? ==> r.guard.gate == 0
    ensures old(f.cache.eviction.pending) == [] || !r.Granted? ==>
      OpenedFresh(f.cache, f, old(f.state.args), openOk, r, old(Snapshot(f.cache)))
  {
    r := f.EvAccess(openOk);
    match r {
      case Granted(e) =>
        ReleaseGuard(e, f.cache);
        o := Ready;
      case Failed(err) =>
        o := OpenFailed(err);
      case _ =>
        o := Pending(r);
    }
  }

  /** open_file_dma: the file starts in st_pre_open; the lazy option returns it
    * so, the eager one accesses it once and drops the guard. `r` is the result
    * of that access; the lazy option makes none, and `r` is then
    * FileNotOpened, the file not being open yet. */
  method OpenFileDma(path: string, flags: bv32, cache: OpenFileCache, lazy: bool, openOk: bool)
    returns (f: FileStmImpl, r: AccessResult, o: OpenOutcome)
    requires cache.Valid()
    modifies cache, cache.eviction, FrontOwner(cache.lru)
    ensures fresh(f) && f.cache == cache && f.Valid() && cache.Valid()
    ensures lazy ==>
      o == Ready && r == Failed(FileNotOpened) && f.state == PreOpen(OpenArgs(path, flags)) && unchanged(cache) && unchanged(cache.eviction)
    ensures !lazy ==> o == (if r.Granted? then Ready else if r.Failed? then OpenFailed(r.error) else Pending(r))
    ensures !lazy && r.Granted? ==> r.guard.gate == 0
    ensures !lazy && (old(cache.eviction.pending) == [] || !r.Granted?) ==>
      OpenedFresh(cache, f, OpenArgs(path, flags), openOk, r, old(Snapshot(cache)))
  {
    f := new FileStmImpl(path, flags, cache);
    if lazy {
      return f, Failed(FileNotOpened), Ready;
    }
    r, o := AccessOnce(f, openOk);
  }

  /** Three eager opens into a cache of limit 3: the third finds the cache full
    * and evicts the first file, the least recently used. */
  method ThreeEagerOpens() returns (f1: FileStmImpl, f2: FileStmImpl, f3: FileStmImpl)
    ensures f1.Kind() == EvictKind && f2.Kind() == OpenKind && f3.Kind() == OpenKind
  {
    var cache := new OpenFileCache(3);
    var r1, r2, r3, o1, o2, o3;
    f1, r1, o1 := OpenFileDma("file1", Create, cache, false, true);
    f2, r2, o2 := OpenFileDma("file2", Create, cache, false, true);
    f3, r3, o3 := OpenFileDma("file3", Create, cache, false, true);
  }

  /** A cache of limit 1 holding one opened, unused file, and a fiber waiting
    * for an eviction: closing the file empties the cache but, as written,
    * leaves the waiter waiting. */
  method CloseKeepsEvictionWaiter() returns (cache: OpenFileCache, ticket: nat)
    ensures cache.lru == [] && cache.eviction.pending == [ticket] && cache.eviction.results == []
  {
    cache := new OpenFileCache(1);
    var f := new FileStmImpl("file1", Create, cache);
    var r, o := AccessOnce(f, true);
    ticket := cache.eviction.Wait();
    f.EvClose();
  }

  /** The same close testing the entry itself serves the waiter with the
    * closed file's entry. */
  method CloseServesEvictionWaiter() returns (cache: OpenFileCache, e: Entry)
    ensures cache.lru == [] && cache.eviction.pending == [] && cache.eviction.results == [e]
  {
    cache := new OpenFileCache(1);
    var f := new FileStmImpl("file1", Create, cache);
    var r, o := AccessOnce(f, true);
    e := r.guard;
    var ticket := cache.eviction.Wait();
    f.EvCloseEvicting();
  }
}
