/** The persistent state the ingestion services share: the users table, the
    knowledge base (`user_knowledge_base`, unique on user, source type and
    source URL), the per-user `user_info` row holding one blob per source, and
    the LinkedIn job cache. */
module Store {
  import opened Wrappers
  import opened Entities

  // ---- knowledge base ----------------------------------------------------

  /** A generated entry id. */
  type EntryId = nat

  /** The triple the table is unique on. */
  datatype EntryKey = EntryKey(userId: UserId, sourceType: string, sourceUrl: string)

  datatype KbEntry = KbEntry(key: EntryKey, content: string, metadata: Metadata)

  /** The table: entries by id, and the next id the generator hands out. */
  datatype Table = Table(rows: map<EntryId, KbEntry>, nextId: EntryId)

  const EmptyTable: Table := Table(map[], 0)

  /** The unique constraint on (user_id, source_type, source_url). */
  ghost predicate UniqueKeys(t: Table) {
    forall i, j :: i in t.rows && j in t.rows && t.rows[i].key == t.rows[j].key ==> i == j
  }

  /** Every id in use was handed out before `nextId`. */
  ghost predicate IdsBelowNext(t: Table) {
    forall i :: i in t.rows ==> i < t.nextId
  }

  ghost predicate WellFormed(t: Table) {
    UniqueKeys(t) && IdsBelowNext(t)
  }

  ghost predicate HasKey(t: Table, key: EntryKey) {
    exists i :: i in t.rows && t.rows[i].key == key
  }

  /** The ids whose entry has the given key. */
  ghost function IdsWithKey(t: Table, key: EntryKey): set<EntryId> {
    set i | i in t.rows && t.rows[i].key == key
  }

  /** The find-then-save of every ingestion service: an entry with the key gets
      its content and metadata replaced and keeps its id; otherwise a new entry
      is created under a fresh id. */
  ghost function UpsertTable(t: Table, key: EntryKey, content: string, metadata: Metadata): (r: Table)
    requires WellFormed(t)
    ensures WellFormed(r)
    ensures exists i :: i in r.rows && r.rows[i] == KbEntry(key, content, metadata)
    ensures forall i :: i in t.rows && t.rows[i].key != key ==> i in r.rows && r.rows[i] == t.rows[i]
    ensures forall i :: i in t.rows ==> i in r.rows
    ensures HasKey(t, key) ==> r.rows.Keys == t.rows.Keys && r.nextId == t.nextId
    ensures !HasKey(t, key) ==> r.rows.Keys == t.rows.Keys + {t.nextId} && r.nextId == t.nextId + 1
  {
    var entry := KbEntry(key, content, metadata);
    if HasKey(t, key) then
      var i :| i in t.rows && t.rows[i].key == key;
      var r := Table(t.rows[i := entry], t.nextId);
      assert r.rows[i] == entry;
      r
    else
      var r := Table(t.rows[t.nextId := entry], t.nextId + 1);
      assert r.rows[t.nextId] == entry;
      r
  }

  /** At most one entry per key: the unique constraint, seen as a count. */
  lemma AtMostOnePerKey(t: Table, key: EntryKey)
    requires UniqueKeys(t)
    ensures |IdsWithKey(t, key)| <= 1
  {
    var ids := IdsWithKey(t, key);
    if ids != {} {
      var i :| i in ids;
      assert ids == {i};
    }
  }

  /** After an upsert the key has exactly one entry, and it carries the new
      content and metadata. */
  lemma {:induction false} UpsertLeavesOneEntry(t: Table, key: EntryKey, content: string, metadata: Metadata)
    requires WellFormed(t)
    ensures exists i :: IdsWithKey(UpsertTable(t, key, content, metadata), key) == {i}
                        && UpsertTable(t, key, content, metadata).rows[i] == KbEntry(key, content, metadata)
  {
    var r := UpsertTable(t, key, content, metadata);
    var i :| i in r.rows && r.rows[i] == KbEntry(key, content, metadata);
    assert IdsWithKey(r, key) == {i};
  }

  /** An existing entry keeps its id: the upsert rewrites it in place. */
  lemma UpsertKeepsIdentity(t: Table, i: EntryId, content: string, metadata: Metadata)
    requires WellFormed(t) && i in t.rows
    ensures UpsertTable(t, t.rows[i].key, content, metadata).rows
         == t.rows[i := KbEntry(t.rows[i].key, content, metadata)]
  {
    var key := t.rows[i].key;
    var r := UpsertTable(t, key, content, metadata);
    var j :| j in r.rows && r.rows[j] == KbEntry(key, content, metadata);
    assert j in t.rows;
    assert j == i;
  }

  /** Upserting the same entry twice leaves the table as one upsert does. */
  lemma UpsertIdempotent(t: Table, key: EntryKey, content: string, metadata: Metadata)
    requires WellFormed(t)
    ensures UpsertTable(UpsertTable(t, key, content, metadata), key, content, metadata)
         == UpsertTable(t, key, content, metadata)
  {
    var r := UpsertTable(t, key, content, metadata);
    var i :| i in r.rows && r.rows[i] == KbEntry(key, content, metadata);
    UpsertKeepsIdentity(r, i, content, metadata);
    assert r.rows[i := KbEntry(key, content, metadata)] == r.rows;
  }

  // ---- user_info blobs ---------------------------------------------------

  datatype Source = GitHub | LeetCode | Resume

  /** One source's blob of the `user_info` row. */
  datatype Blob =
    | GitHubBlob(github: GitHubStats)
    | LeetCodeBlob(leetcode: LeetCodeStats)
    | ResumeBlob(resume: ResumeSummary)
  {
    function SourceOf(): Source {
      match this
      case GitHubBlob(_) => GitHub
      case LeetCodeBlob(_) => LeetCode
      case ResumeBlob(_) => Resume
    }
  }

  /** The blob a row holds for a source. */
  function BlobOf(info: UserInfo, s: Source): (r: Option<Blob>)
    ensures r.Some? ==> r.value.SourceOf() == s
  {
    match s
    case GitHub => if info.githubStats.Some? then Some(GitHubBlob(info.githubStats.value)) else None
    case LeetCode => if info.leetcodeStats.Some? then Some(LeetCodeBlob(info.leetcodeStats.value)) else None
    case Resume => if info.resumeSummary.Some? then Some(ResumeBlob(info.resumeSummary.value)) else None
  }

  /** The user's row after one service stored its blob at `now`: the row found
      or a fresh one, with that source's blob replaced wholesale and
      `lastIngestedAt` set. */
  function WithBlob(found: Option<UserInfo>, blob: Blob, now: Instant): (r: UserInfo)
    ensures BlobOf(r, blob.SourceOf()) == Some(blob)
    ensures forall s :: s != blob.SourceOf() ==> BlobOf(r, s) == BlobOf(found.GetOr(EmptyUserInfo), s)
    ensures r.lastIngestedAt == Some(now)
  {
    var base := found.GetOr(EmptyUserInfo);
    match blob
    case GitHubBlob(g) => base.(githubStats := Some(g), lastIngestedAt := Some(now))
    case LeetCodeBlob(l) => base.(leetcodeStats := Some(l), lastIngestedAt := Some(now))
    case ResumeBlob(x) => base.(resumeSummary := Some(x), lastIngestedAt := Some(now))
  }

  /** Storing a later blob of another source keeps the earlier one. */
  lemma BlobsOfDifferentSourcesCommute(found: Option<UserInfo>, a: Blob, b: Blob, t1: Instant, t2: Instant)
    requires a.SourceOf() != b.SourceOf()
    ensures BlobOf(WithBlob(Some(WithBlob(found, a, t1)), b, t2), a.SourceOf()) == Some(a)
    ensures BlobOf(WithBlob(Some(WithBlob(found, b, t1)), a, t2), b.SourceOf()) == Some(b)
  {
  }

  // ---- the database ------------------------------------------------------

  /** The stores as the services see them within one request. */
  class Database {
    var users: map<UserId, User>
    var kb: Table
    var profiles: map<UserId, UserInfo>
    var jobs: map<string, LinkedInJob>

    ghost predicate Valid()
      reads this
    {
      WellFormed(kb)
        && forall id :: id in jobs ==> jobs[id].jobId == id
    }

    constructor (users0: map<UserId, User>)
      ensures Valid()
      ensures users == users0 && kb == EmptyTable && profiles == map[] && jobs == map[]
    {
      users := users0;
      kb := EmptyTable;
      profiles := map[];
      jobs := map[];
    }

    /** The repository query findByUserIdAndSourceTypeAndSourceUrl: the id of the
        entry with the key, if there is one. */
    method FindByKey(key: EntryKey) returns (found: Option<EntryId>)
      requires Valid()
      ensures found.Some? <==> HasKey(kb, key)
      ensures found.Some? ==> found.value in kb.rows && kb.rows[found.value].key == key
    {
      var i := 0;
      while i < kb.nextId
        invariant 0 <= i <= kb.nextId
        invariant forall j :: j in kb.rows && j < i ==> kb.rows[j].key != key
      {
        if i in kb.rows && kb.rows[i].key == key {
          return Some(i);
        }
        i := i + 1;
      }
      return None;
    }

    /** Find the entry by its key, then save it: replace content and metadata
        of the one found, or create a new one. */
    method Upsert(key: EntryKey, content: string, metadata: Metadata)
      requires Valid()
      modifies this
      ensures Valid()
      ensures kb == UpsertTable(old(kb), key, content, metadata)
      ensures users == old(users) && profiles == old(profiles) && jobs == old(jobs)
    {
      var found := FindByKey(key);
      var entry := KbEntry(key, content, metadata);
      match found {
        case Some(i) =>
          kb := Table(kb.rows[i := entry], kb.nextId);
        case None =>
          kb := Table(kb.rows[kb.nextId := entry], kb.nextId + 1);
      }
    }

    /** Load the user's `user_info` row (or build one), replace the blob of the
        blob's source, set `lastIngestedAt`, save. */
    method SaveBlob(userId: UserId, blob: Blob, now: Instant)
      requires Valid()
      modifies this
      ensures Valid()
      ensures profiles == old(profiles)[userId := WithBlob(
                if userId in old(profiles) then Some(old(profiles)[userId]) else None, blob, now)]
      ensures users == old(users) && kb == old(kb) && jobs == old(jobs)
    {
      var found := if userId in profiles then Some(profiles[userId]) else None;
      profiles := profiles[userId := WithBlob(found, blob, now)];
    }

    /** Save a LinkedIn job row. */
    method SaveJob(job: LinkedInJob)
      requires Valid()
      modifies this
      ensures Valid()
      ensures jobs == old(jobs)[job.jobId := job]
      ensures users == old(users) && kb == old(kb) && profiles == old(profiles)
    {
      jobs := jobs[job.jobId := job];
    }
  }
}
