/** Internal keys, entries and what a read at a sequence number means
    (db/dbformat.h, db/dbformat.cc, db/memtable.cc).

    The storage engine only ever compares user keys. Every countable total order embeds
    in the reals, so UserKey is `real`; module ByteOrder gives the embedding for the
    default byte-wise comparator. */
module Keys {

  type Byte = b: nat | b < 256
  type Bytes = seq<Byte>
  type UserKey = real

  datatype Option<+T> = None | Some(value: T)

  /** kTypeDeletion and kTypeValue. */
  datatype Kind = Deletion | Put

  /** kMaxSequenceNumber: eight of the 64 bits hold the type. */
  const MAX_SEQUENCE: nat := 0xFF_FFFF_FFFF_FFFF

  datatype InternalKey = InternalKey(user: UserKey, seqno: nat, kind: Kind)

  /** PackSequenceAndType: the trailing 64-bit number of an encoded internal key. */
  function Tag(k: InternalKey): nat {
    256 * k.seqno + (if k.kind.Put? then 1 else 0)
  }

  /** InternalKeyComparator::Compare(a, b) < 0: user key up, packed number down. */
  predicate Less(a: InternalKey, b: InternalKey) {
    a.user < b.user || (a.user == b.user && Tag(a) > Tag(b))
  }

  datatype Entry = Entry(key: InternalKey, value: Bytes)

  ghost predicate Sorted(s: seq<Entry>) {
    forall i, j :: 0 <= i < j < |s| ==> Less(s[i].key, s[j].key)
  }

  /** The key a lookup of `u` at `s` seeks to; kValueTypeForSeek is kTypeValue. */
  function LookupKey(u: UserKey, s: nat): InternalKey {
    InternalKey(u, s, Put)
  }

  predicate Matches(e: Entry, u: UserKey, s: nat) {
    e.key.user == u && e.key.seqno <= s
  }

  function EntrySet(s: seq<Entry>): set<Entry> {
    set e | e in s
  }

  /** `r` is the newest entry of `u` among `all` written at or before `s`. */
  ghost predicate IsNewest(all: set<Entry>, u: UserKey, s: nat, r: Option<Entry>) {
    match r
    case None => forall e :: e in all ==> !Matches(e, u, s)
    case Some(n) => n in all && Matches(n, u, s) && forall e :: e in all && Matches(e, u, s) ==> e.key.seqno <= n.key.seqno
  }

  /** No two entries carry the same sequence number. */
  ghost predicate UniqueSeqnos(all: set<Entry>) {
    forall e, f :: e in all && f in all && e.key.seqno == f.key.seqno ==> e == f
  }

  ghost function Newest(all: set<Entry>, u: UserKey, s: nat): (r: Option<Entry>)
    ensures IsNewest(all, u, s, r)
  {
    if all == {} then None else
    var e :| e in all;
    var rest := Newest(all - {e}, u, s);
    if Matches(e, u, s) && (rest.None? || rest.value.key.seqno < e.key.seqno) then Some(e) else rest
  }

  /** What a reader sees: a value, or nothing (never written, or deleted). */
  function Visible(r: Option<Entry>): Option<Bytes> {
    if r.Some? && r.value.key.kind.Put? then Some(r.value.value) else None
  }

  /** The reading rule the whole engine has to implement. */
  ghost function View(all: set<Entry>, u: UserKey, s: nat): Option<Bytes> {
    Visible(Newest(all, u, s))
  }

  lemma NewestUnique(all: set<Entry>, u: UserKey, s: nat, r: Option<Entry>)
    requires UniqueSeqnos(all) && IsNewest(all, u, s, r)
    ensures r == Newest(all, u, s)
  {
    var n := Newest(all, u, s);
    if r.Some? && n.Some? {
      assert r.value.key.seqno == n.value.key.seqno;
    }
  }

  /** The packed comparison puts exactly the entries readable at `s` at or after the seek key. */
  lemma LookupSplitsHistory(e: Entry, u: UserKey, s: nat)
    requires e.key.user == u
    ensures Less(e.key, LookupKey(u, s)) <==> !Matches(e, u, s)
  {}

  /** Iterator Seek on a sorted run: index of the first entry at or after `k`. */
  method LowerBound(s: seq<Entry>, k: InternalKey) returns (i: nat)
    requires Sorted(s)
    ensures i <= |s|
    ensures forall j :: 0 <= j < i ==> Less(s[j].key, k)
    ensures forall j :: i <= j < |s| ==> !Less(s[j].key, k)
  {
    i := 0;
    while i < |s| && Less(s[i].key, k)
      invariant i <= |s|
      invariant forall j :: 0 <= j < i ==> Less(s[j].key, k)
    {
      i := i + 1;
    }
  }

  /** MemTable::Get and Table::InternalGet with SaveValue: seek once, then look only at
      whether the entry found carries the wanted user key. */
  method RunGet(s: seq<Entry>, u: UserKey, snapshot: nat) returns (r: Option<Entry>)
    requires Sorted(s)
    ensures IsNewest(EntrySet(s), u, snapshot, r)
  {
    var i := LowerBound(s, LookupKey(u, snapshot));
    if i < |s| && s[i].key.user == u {
      r := Some(s[i]);
    } else {
      r := None;
    }
    RunGetIsNewest(s, u, snapshot, i);
  }

  /** Seeking to (u, snapshot) in a sorted run lands on the newest readable entry of u, if any. */
  lemma RunGetIsNewest(s: seq<Entry>, u: UserKey, snapshot: nat, i: nat)
    requires Sorted(s) && i <= |s|
    requires forall j :: 0 <= j < i ==> Less(s[j].key, LookupKey(u, snapshot))
    requires forall j :: i <= j < |s| ==> !Less(s[j].key, LookupKey(u, snapshot))
    ensures IsNewest(EntrySet(s), u, snapshot, if i < |s| && s[i].key.user == u then Some(s[i]) else None)
  {
    forall e | e in EntrySet(s) && Matches(e, u, snapshot)
      ensures i < |s| && s[i].key.user == u && e.key.seqno <= s[i].key.seqno
    {
      var j :| 0 <= j < |s| && s[j] == e;
      if i < j {
        assert Less(s[i].key, s[j].key);
      }
    }
  }
}
