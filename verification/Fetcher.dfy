/** The capped, newest-first paging loop of src/log_pipeline/fetcher.py. */
module Fetcher {
  import opened Options

  /** What a document is sorted by: its time, then its id. */
  datatype SortKey = SortKey(at: int, id: int)

  datatype Document = Document(key: SortKey, body: string)

  predicate Newer(a: SortKey, b: SortKey) { a.at > b.at || (a.at == b.at && a.id > b.id) }

  /** Of two different keys one is newer: the later, and at one time the one with the higher id. */
  lemma NewerIsTotal(a: SortKey, b: SortKey)
    requires a != b
    ensures Newer(a, b) <==> !Newer(b, a)
    ensures a.at > b.at ==> Newer(a, b)
  {
  }

  /** The matching documents as the search service orders them: newest first, no two alike. */
  predicate NewestFirst(docs: seq<Document>) { forall i, j | 0 <= i < j < |docs| :: Newer(docs[i].key, docs[j].key) }

  /** The documents after a key. */
  function Beyond(docs: seq<Document>, key: SortKey): seq<Document> {
    if docs == [] then [] else (if Newer(key, docs[0].key) then [docs[0]] else []) + Beyond(docs[1..], key)
  }

  /** One search: the next `size` documents after a key, or the first ones. */
  function Search(docs: seq<Document>, after: Option<SortKey>, size: nat): seq<Document> {
    var rest := if after.None? then docs else Beyond(docs, after.value);
    if |rest| <= size then rest else rest[..size]
  }

  const PageSize: nat := 500

  function Reversed(s: seq<Document>): (r: seq<Document>)
    ensures |r| == |s| && forall i | 0 <= i < |s| :: r[i] == s[|s| - 1 - i]
  {
    if s == [] then [] else Reversed(s[1..]) + [s[0]]
  }

  lemma {:induction false} BeyondAll(docs: seq<Document>, key: SortKey)
    requires forall d | d in docs :: Newer(key, d.key)
    ensures Beyond(docs, key) == docs
  {
    if docs != [] {
      BeyondAll(docs[1..], key);
    }
  }

  /** Searching after the document at `k - 1` continues at `k`. */
  lemma {:induction false} BeyondPrefix(docs: seq<Document>, k: nat)
    requires NewestFirst(docs) && 0 < k <= |docs|
    ensures Beyond(docs, docs[k - 1].key) == docs[k..]
  {
    var key := docs[k - 1].key;
    if k == 1 {
      BeyondAll(docs[1..], key);
    } else {
      assert NewestFirst(docs[1..]);
      BeyondPrefix(docs[1..], k - 1);
      assert docs[1..][k - 2].key == key && docs[1..][k - 1..] == docs[k..];
      assert Newer(docs[0].key, key);
    }
  }

  function Min(a: int, b: int): int { if a < b then a else b }

  /** How many documents are kept. A negative cap cuts that many off the end of the first page, as a
      slice does. */
  function Kept(total: nat, cap: int): nat {
    if cap >= 0 then Min(total, cap)
    else if Min(total, PageSize) + cap >= 0 then Min(total, PageSize) + cap else 0
  }

  /** Where the scan goes on after the first `n` documents. */
  function Resume(docs: seq<Document>, n: nat): Option<SortKey>
    requires n <= |docs|
  {
    if n == 0 then None else Some(docs[n - 1].key)
  }

  lemma NextPage(docs: seq<Document>, n: nat)
    requires NewestFirst(docs) && n <= |docs|
    ensures Search(docs, Resume(docs, n), PageSize) == docs[n..Min(n + PageSize, |docs|)]
  {
    if n > 0 {
      BeyondPrefix(docs, n);
    }
    assert docs[n..][..Min(PageSize, |docs| - n)] == docs[n..Min(n + PageSize, |docs|)];
  }

  lemma ReversedAscends(docs: seq<Document>, n: nat)
    requires NewestFirst(docs) && n <= |docs|
    ensures var r := Reversed(docs[..n]); forall i, j | 0 <= i < j < |r| :: Newer(r[j].key, r[i].key)
  {
  }

  /** The scan proper: the newest documents the cap allows, newest first. */
  method Scan(docs: seq<Document>, cap: int) returns (logs: seq<Document>, truncated: bool)
    requires NewestFirst(docs)
    ensures logs == docs[..Kept(|docs|, cap)]
    ensures truncated <==> docs != [] && |docs| >= cap
  {
    hide Search, NewestFirst;
    logs := [];
    var after: Option<SortKey> := None;
    truncated := false;
    while true
      invariant |logs| <= |docs| && logs == docs[..|logs|] && !truncated && after == Resume(docs, |logs|)
      invariant logs != [] ==> |logs| >= PageSize && |logs| < cap
      decreases |docs| - |logs|
    {
      NextPage(docs, |logs|);
      var hits := Search(docs, after, PageSize);
      if hits == [] {
        break;
      }
      ghost var n := |logs| + |hits|;
      assert logs + hits == docs[..n];
      logs := logs + hits;
      after := Some(hits[|hits| - 1].key);
      if |logs| >= cap {
        logs := if cap >= 0 then logs[..cap] else if |logs| + cap >= 0 then logs[..|logs| + cap] else [];
        truncated := true;
        break;
      }
      if |hits| < PageSize {
        break;
      }
    }
  }

  /** Ends, and returns in ascending order exactly the newest documents the cap allows; truncation is
      reported exactly when there are documents and they reach the cap. */
  method FetchLogs(docs: seq<Document>, cap: int) returns (logs: seq<Document>, truncated: bool)
    requires NewestFirst(docs)
    ensures logs == Reversed(docs[..Kept(|docs|, cap)])
    ensures cap >= 0 ==> |logs| == if |docs| < cap then |docs| else cap
    ensures cap < 0 ==> |logs| == var page := if |docs| < 500 then |docs| else 500; if page + cap > 0 then page + cap else 0
    ensures forall i | 0 <= i < |logs| :: logs[i] == docs[|logs| - 1 - i]
    ensures truncated <==> docs != [] && |docs| >= cap
    ensures !truncated ==> logs == Reversed(docs)
    ensures forall i, j | 0 <= i < j < |logs| :: Newer(logs[j].key, logs[i].key)
  {
    logs, truncated := Scan(docs, cap);
    assert docs[..|docs|] == docs;
    ReversedAscends(docs, |logs|);
    logs := Reversed(logs);
  }
}
