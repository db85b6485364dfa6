/** The store of group records with the two caches in front of it: src/dlt/group_store.py in one
    process, while other processes write to the same store. */
module GroupStore {
  import opened Options
  import opened GroupRecord

  type Fingerprint = string
  type Time = real

  datatype Subdir = Occurrences | CodeChecks

  datatype Key = Key(fingerprint: Fingerprint, subdir: Subdir, name: string)

  /** What the store held at one time. */
  datatype Moment = Moment(at: Time, folders: map<Fingerprint, Folder>)

  function FolderOf(folders: map<Fingerprint, Folder>, fp: Fingerprint): Folder {
    if fp in folders then folders[fp] else Empty
  }

  function Objects(f: Folder, d: Subdir): map<string, Record> {
    match d case Occurrences => f.occurrences case CodeChecks => f.checks
  }

  /** What any writer may do to a folder: create objects, put the other parts, never touch the legacy record. */
  ghost predicate Grows(before: Folder, after: Folder) {
    && before.legacy == after.legacy
    && forall d, n | n in Objects(before, d) :: n in Objects(after, d) && Objects(after, d)[n] == Objects(before, d)[n]
  }

  lemma {:induction false} FetchedTo(objects: map<string, Record>, names: seq<string>, k: nat)
    requires k < |names|
    ensures Fetched(objects, names[..k + 1])
         == Fetched(objects, names[..k]) + (if names[k] in objects then [objects[names[k]]] else [])
  {
    if k == 0 {
      assert names[..1] == [names[0]] && names[..1][1..] == [] && names[..0] == [];
    } else {
      FetchedTo(objects, names[1..], k - 1);
      assert names[..k + 1][1..] == names[1..][..k] && names[..k][1..] == names[1..][..k - 1];
    }
  }

  // ---------------------------------------------------------------------
  // What the caches promise
  // ---------------------------------------------------------------------

  /** Every remembered object is in the store, as remembered. */
  ghost predicate RecordsTrue(records: map<Key, Record>, folders: map<Fingerprint, Folder>) {
    forall k | k in records :: RecordTrue(k, records[k], folders)
  }

  predicate RecordTrue(k: Key, r: Record, folders: map<Fingerprint, Folder>) {
    var objects := Objects(FolderOf(folders, k.fingerprint), k.subdir);
    k.name in objects && objects[k.name] == r
  }

  function SinceWrite(written: map<Fingerprint, nat>, fp: Fingerprint): nat { if fp in written then written[fp] else 0 }

  type Composer = Folder -> Option<Group>

  /** `g` is what the store composed to at the moment `i`. */
  predicate HeldAt(past: seq<Moment>, compose: Composer, fp: Fingerprint, g: Option<Group>, at: Time, i: nat) {
    i < |past| && past[i].at == at && g == compose(FolderOf(past[i].folders, fp))
  }

  /** Every cached composition was made no later than now and not before the last write from here. */
  ghost predicate CacheTrue(cache: map<Fingerprint, (Time, Option<Group>)>, past: seq<Moment>, written: map<Fingerprint, nat>,
                            clock: Time, compose: Composer)
  {
    forall fp | fp in cache ::
      cache[fp].0 <= clock && exists i: nat :: SinceWrite(written, fp) <= i && HeldAt(past, compose, fp, cache[fp].1, cache[fp].0, i)
  }

  /** What no other process has written to is, since the last write from here, as it is now. */
  ghost predicate Undisturbed(past: seq<Moment>, written: map<Fingerprint, nat>, others: set<Fingerprint>, folders: map<Fingerprint, Folder>) {
    forall fp, i: nat | fp !in others && SinceWrite(written, fp) <= i < |past| ::
      FolderOf(past[i].folders, fp) == FolderOf(folders, fp)
  }

  lemma RecordsStayTrue(records: map<Key, Record>, before: map<Fingerprint, Folder>, after: map<Fingerprint, Folder>)
    requires RecordsTrue(records, before) && forall fp :: Grows(FolderOf(before, fp), FolderOf(after, fp))
    ensures RecordsTrue(records, after)
  {
    forall k | k in records
      ensures RecordTrue(k, records[k], after)
    {
      assert RecordTrue(k, records[k], before);
      assert Grows(FolderOf(before, k.fingerprint), FolderOf(after, k.fingerprint));
    }
  }

  lemma CacheStaysTrue(cache: map<Fingerprint, (Time, Option<Group>)>, past: seq<Moment>, written: map<Fingerprint, nat>,
                       clock: Time, compose: Composer, more: seq<Moment>, now: Time)
    requires CacheTrue(cache, past, written, clock, compose) && clock <= now
    ensures CacheTrue(cache, past + more, written, now, compose)
  {
    forall fp | fp in cache
      ensures exists i: nat :: SinceWrite(written, fp) <= i && HeldAt(past + more, compose, fp, cache[fp].1, cache[fp].0, i)
    {
      var i: nat :| SinceWrite(written, fp) <= i && HeldAt(past, compose, fp, cache[fp].1, cache[fp].0, i);
      assert HeldAt(past + more, compose, fp, cache[fp].1, cache[fp].0, i);
    }
  }

  lemma CacheGains(cache: map<Fingerprint, (Time, Option<Group>)>, past: seq<Moment>, written: map<Fingerprint, nat>,
                   clock: Time, compose: Composer, fp: Fingerprint, g: Option<Group>)
    requires CacheTrue(cache, past, written, clock, compose) && past != [] && SinceWrite(written, fp) < |past|
    requires HeldAt(past, compose, fp, g, clock, |past| - 1)
    ensures CacheTrue(cache[fp := (clock, g)], past, written, clock, compose)
  {
    var i: nat := |past| - 1;
    assert SinceWrite(written, fp) <= i && HeldAt(past, compose, fp, g, clock, i);
  }

  /** A cached composition, taken while it lasts. */
  lemma CacheServes(cache: map<Fingerprint, (Time, Option<Group>)>, past: seq<Moment>, written: map<Fingerprint, nat>,
                    clock: Time, compose: Composer, others: set<Fingerprint>, folders: map<Fingerprint, Folder>, fp: Fingerprint)
    requires CacheTrue(cache, past, written, clock, compose) && Undisturbed(past, written, others, folders) && fp in cache
    ensures exists i: nat :: SinceWrite(written, fp) <= i && HeldAt(past, compose, fp, cache[fp].1, cache[fp].0, i)
    ensures cache[fp].0 <= clock && (fp !in others ==> cache[fp].1 == compose(FolderOf(folders, fp)))
  {
    var i: nat :| SinceWrite(written, fp) <= i && HeldAt(past, compose, fp, cache[fp].1, cache[fp].0, i);
  }

  lemma CacheLoses(cache: map<Fingerprint, (Time, Option<Group>)>, past: seq<Moment>, written: map<Fingerprint, nat>,
                   clock: Time, compose: Composer, fp: Fingerprint, at: nat)
    requires CacheTrue(cache, past, written, clock, compose)
    ensures CacheTrue(cache - {fp}, past, written[fp := at], clock, compose)
  {
    var cache', written' := cache - {fp}, written[fp := at];
    forall q | q in cache'
      ensures exists i: nat :: SinceWrite(written', q) <= i && HeldAt(past, compose, q, cache'[q].1, cache'[q].0, i)
    {
      var i: nat :| SinceWrite(written, q) <= i && HeldAt(past, compose, q, cache[q].1, cache[q].0, i);
      assert SinceWrite(written', q) <= i && HeldAt(past, compose, q, cache'[q].1, cache'[q].0, i);
    }
  }

  lemma StaysUndisturbed(past: seq<Moment>, written: map<Fingerprint, nat>, others: set<Fingerprint>,
                         folders: map<Fingerprint, Folder>, next: map<Fingerprint, Folder>, others': set<Fingerprint>, now: Time)
    requires Undisturbed(past, written, others, folders) && others <= others'
    requires forall fp | fp !in others' :: FolderOf(next, fp) == FolderOf(folders, fp)
    ensures Undisturbed(past + [Moment(now, next)], written, others', next)
  {
  }

  lemma UndisturbedByOwn(past: seq<Moment>, written: map<Fingerprint, nat>, others: set<Fingerprint>,
                         folders: map<Fingerprint, Folder>, fp: Fingerprint, f: Folder, now: Time)
    requires Undisturbed(past, written, others, folders)
    ensures Undisturbed(past + [Moment(now, folders[fp := f])], written[fp := |past|], others, folders[fp := f])
  {
  }

  // ---------------------------------------------------------------------
  // The process
  // ---------------------------------------------------------------------

  class Process {
    const ttl: Time
    const cap: nat
    const order: Listing
    var clock: Time
    var folders: map<Fingerprint, Folder>                      // the store, shared
    var cache: map<Fingerprint, (Time, Option<Group>)>         // compositions, with when they were made
    var records: map<Key, Record>                              // objects, which never change
    ghost var past: seq<Moment>                                // what the store has held
    ghost var written: map<Fingerprint, nat>                   // the moment after the last write of this process
    ghost var others: set<Fingerprint>                         // what other processes have written to

    ghost function Composed(f: Folder): Option<Group> { Compose(f, order, cap) }

    ghost predicate Valid()
      reads this
    {
      && past != [] && past[|past| - 1].folders == folders && past[|past| - 1].at <= clock
      && (forall fp | fp in written :: written[fp] < |past|)
      && RecordsTrue(records, folders)
      && CacheTrue(cache, past, written, clock, Composed)
      && Undisturbed(past, written, others, folders)
    }

    constructor (ttl: Time, cap: nat, order: Listing, clock: Time, folders: map<Fingerprint, Folder>)
      ensures Valid() && this.clock == clock && this.folders == folders && written == map[] && others == {}
      ensures this.ttl == ttl && this.cap == cap && this.order == order && past == [Moment(clock, folders)]
    {
      this.ttl, this.cap, this.order, this.clock, this.folders := ttl, cap, order, clock, folders;
      cache, records, past, written, others := map[], map[], [Moment(clock, folders)], map[], {};
    }

    // ---- what happens around the process

    method Elapse(now: Time)
      requires Valid() && clock <= now
      modifies this`clock
      ensures Valid() && clock == now
    {
      hide RecordsTrue, CacheTrue, Undisturbed;
      CacheStaysTrue(cache, past, written, clock, Composed, [], now);
      assert past + [] == past;
      clock := now;
    }

    /** Other processes write. */
    method Elsewhere(next: map<Fingerprint, Folder>)
      requires Valid() && forall fp :: Grows(FolderOf(folders, fp), FolderOf(next, fp))
      modifies this`folders, this`past, this`others
      ensures Valid() && folders == next && past == old(past) + [Moment(clock, next)]
      ensures forall fp :: fp in others <==> fp in old(others) || FolderOf(next, fp) != FolderOf(old(folders), fp)
    {
      hide RecordsTrue, CacheTrue, Undisturbed, Grows;
      ghost var others' := others + set fp | fp in folders.Keys + next.Keys && FolderOf(next, fp) != FolderOf(folders, fp);
      assert forall fp | fp !in folders.Keys + next.Keys :: FolderOf(next, fp) == Empty == FolderOf(folders, fp);
      CacheStaysTrue(cache, past, written, clock, Composed, [Moment(clock, next)], clock);
      RecordsStayTrue(records, folders, next);
      StaysUndisturbed(past, written, others, folders, next, others', clock);
      others := others';
      folders := next;
      past := past + [Moment(clock, next)];
    }

    /** The object cache is bounded and drops what it likes. */
    method Evict(keys: set<Key>)
      requires Valid()
      modifies this`records
      ensures Valid() && records == old(records) - keys
    {
      hide CacheTrue, Undisturbed;
      records := records - keys;
    }

    // ---- reads

    /** Every record under `d`, fetching only the ones not remembered. */
    method ReadAll(fp: Fingerprint, d: Subdir) returns (rs: seq<Record>)
      requires Valid()
      modifies this`records
      ensures Valid() && rs == Fetched(Objects(FolderOf(folders, fp), d), order(Objects(FolderOf(folders, fp), d).Keys))
    {
      hide CacheTrue, Undisturbed;
      var objects := Objects(FolderOf(folders, fp), d);
      var names := order(objects.Keys);
      rs := [];
      for i := 0 to |names|
        invariant RecordsTrue(records, folders) && rs == Fetched(objects, names[..i])
      {
        FetchedTo(objects, names, i);
        var key := Key(fp, d, names[i]);
        if key in records {
          assert RecordTrue(key, records[key], folders);
          rs := rs + [records[key]];
        } else if names[i] in objects {
          var dropped: set<Key> := *;
          records := (records - dropped)[key := objects[names[i]]];
          rs := rs + [objects[names[i]]];
        }
      }
      assert names[..|names|] == names;
    }

    /** The group of a fingerprint: what the store held at some moment less than the cache's lifetime
        ago, and not before the last write from here; with no other writer, what it holds now. */
    method LoadGroup(fp: Fingerprint) returns (g: Option<Group>)
      requires Valid()
      modifies this`records, this`cache, this`past
      ensures Valid() && old(past) <= past
      ensures forall i | |old(past)| <= i < |past| :: past[i] == Moment(clock, folders)
      ensures fp == "" ==> g.None?
      ensures fp != "" ==> exists i: nat, at: Time ::
        && SinceWrite(written, fp) <= i && HeldAt(past, Composed, fp, g, at, i)
        && at <= clock && (at == clock || clock - at < ttl)
      ensures fp != "" && fp !in others ==> g == Compose(FolderOf(folders, fp), order, cap)
      ensures fp != "" && fp !in old(cache) ==> g == Compose(FolderOf(folders, fp), order, cap)
    {
      hide RecordsTrue, CacheTrue, Undisturbed, HeldAt, Compose;
      if fp == "" {
        return None;
      }
      if fp in cache && clock - cache[fp].0 < ttl {
        g := cache[fp].1;
        CacheServes(cache, past, written, clock, Composed, others, folders, fp);
        return;
      }
      g := Refill(fp);
    }

    /** Composes the group anew and caches it. */
    method Refill(fp: Fingerprint) returns (g: Option<Group>)
      requires Valid()
      modifies this`records, this`cache, this`past
      ensures Valid() && past == old(past) + [Moment(clock, folders)]
      ensures g == Compose(FolderOf(folders, fp), order, cap)
      ensures SinceWrite(written, fp) < |past| && HeldAt(past, Composed, fp, g, clock, |past| - 1)
    {
      hide RecordsTrue, CacheTrue, Undisturbed;
      var occurrences := ReadAll(fp, Occurrences);
      var checks := ReadAll(fp, CodeChecks);
      g := ComposeFrom(FolderOf(folders, fp), occurrences, checks, cap);
      assert g == Composed(FolderOf(folders, fp));
      hide Compose, ComposeFrom;
      CacheStaysTrue(cache, past, written, clock, Composed, [Moment(clock, folders)], clock);
      StaysUndisturbed(past, written, others, folders, folders, others, clock);
      past := past + [Moment(clock, folders)];
      CacheGains(cache, past, written, clock, Composed, fp, g);
      cache := cache[fp := (clock, g)];
    }

    // ---- writes

    /** A write from here: the folder changes and its cached composition is dropped. */
    method Write(fp: Fingerprint, f: Folder)
      requires Valid() && Grows(FolderOf(folders, fp), f)
      modifies this`folders, this`cache, this`past, this`written
      ensures Valid() && folders == old(folders)[fp := f] && cache == old(cache) - {fp}
      ensures past == old(past) + [Moment(clock, folders)] && written == old(written)[fp := |old(past)|]
    {
      hide RecordsTrue, CacheTrue, Undisturbed;
      assert forall q | q != fp :: FolderOf(folders[fp := f], q) == FolderOf(folders, q);
      RecordsStayTrue(records, folders, folders[fp := f]);
      CacheStaysTrue(cache, past, written, clock, Composed, [Moment(clock, folders[fp := f])], clock);
      CacheLoses(cache, past + [Moment(clock, folders[fp := f])], written, clock, Composed, fp, |past|);
      UndisturbedByOwn(past, written, others, folders, fp, f, clock);
      folders := folders[fp := f];
      written := written[fp := |past|];
      past := past + [Moment(clock, folders)];
      cache := cache - {fp};
    }

    method Remember(key: Key)
      requires Valid() && key.name in Objects(FolderOf(folders, key.fingerprint), key.subdir)
      modifies this`records
      ensures Valid()
    {
      hide CacheTrue, Undisturbed;
      var dropped: set<Key> := *;
      records := (records - dropped)[key := Objects(FolderOf(folders, key.fingerprint), key.subdir)[key.name]];
    }

    /** Registers one case. The group returned is the store's, as of this write. */
    method RecordOccurrence(fp: Fingerprint, caseId: string, refId: string, verdict: string, tick: int, meta: string)
      returns (g: Option<Group>)
      requires Valid() && fp != ""
      modifies this`folders, this`cache, this`past, this`written, this`records
      ensures Valid() && SinceWrite(written, fp) == |old(past)|
      ensures folders == old(folders)[fp := Recorded(FolderOf(old(folders), fp), Record(caseId, refId, verdict, clock, tick), meta)]
      ensures g == Compose(FolderOf(folders, fp), order, cap)
    {
      hide RecordsTrue, CacheTrue, Undisturbed, Compose;
      var r := Record(caseId, refId, verdict, clock, tick);
      var created := caseId !in FolderOf(folders, fp).occurrences;
      Write(fp, Recorded(FolderOf(folders, fp), r, meta));
      if created {
        Remember(Key(fp, Occurrences, caseId));
      }
      g := LoadGroup(fp);
    }

    method AttachRecommendation(fp: Fingerprint, recommendation: string) returns (g: Option<Group>)
      requires Valid() && fp != ""
      modifies this`folders, this`cache, this`past, this`written, this`records
      ensures Valid() && SinceWrite(written, fp) == |old(past)|
      ensures folders == old(folders)[fp := FolderOf(old(folders), fp).(recommendation := Some(recommendation))]
      ensures g == Compose(FolderOf(folders, fp), order, cap) && g.Some? && g.value.recommendation == Some(recommendation)
    {
      hide RecordsTrue, CacheTrue, Undisturbed;
      Write(fp, FolderOf(folders, fp).(recommendation := Some(recommendation)));
      g := LoadGroup(fp);
    }

    /** The latest check, and one create-only object per case, or per call when no case is given: then
        `name` is one never used before. */
    method AttachCodeCheck(fp: Fingerprint, check: string, verdict: string, name: string, tick: int) returns (g: Option<Group>)
      requires Valid() && fp != ""
      modifies this`folders, this`cache, this`past, this`written, this`records
      ensures Valid() && SinceWrite(written, fp) == |old(past)|
      ensures var f := FolderOf(old(folders), fp).(codeCheck := Some(check));
        folders == old(folders)[fp := if verdict == "" then f
                                      else f.(checks := Created(f.checks, name, Record(name, "", verdict, clock, tick)))]
      ensures g == Compose(FolderOf(folders, fp), order, cap) && g.Some? && g.value.codeCheck == Some(check)
    {
      hide RecordsTrue, CacheTrue, Undisturbed;
      var f := FolderOf(folders, fp).(codeCheck := Some(check));
      if verdict == "" {
        Write(fp, f);
      } else {
        var created := name !in f.checks;
        Write(fp, f.(checks := Created(f.checks, name, Record(name, "", verdict, clock, tick))));
        if created {
          Remember(Key(fp, CodeChecks, name));
        }
      }
      g := LoadGroup(fp);
    }
  }
}
