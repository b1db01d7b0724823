/** The stored record of one mood NFT and the rules the schema puts on it.
    Timestamps are abstract clock readings. */
module NftMetadata {
  import opened Text

  const MinMood := 0
  const MaxMood := 11
  const DefaultMood := 0
  const DefaultMessage := ""
  const MaxMessageLength := 200

  /** One entry of the change history: a `(mood, message)` pair and when it
      was recorded. */
  datatype Entry = Entry(mood: int, message: string, timestamp: nat)

  datatype Record = Record(
    tokenId: int,
    owner: string,
    mood: int,
    message: string,
    changeHistory: seq<Entry>,
    createdAt: nat,
    lastUpdated: nat)

  /** The collection, keyed by token id. */
  type Store = map<int, Record>

  predicate MoodInRange(mood: int) {
    MinMood <= mood <= MaxMood
  }

  /** What saving a record checks: the owner is present (a required string
      may not be empty), the mood lies in [0, 11] and the message has at
      most 200 characters. History entries carry no validators. */
  predicate PassesSchema(r: Record) {
    && r.owner != ""
    && MoodInRange(r.mood)
    && |r.message| <= MaxMessageLength
  }

  /** The values a history entry can hold once it was a record's current
      state. */
  predicate ValidEntry(e: Entry) {
    MoodInRange(e.mood) && |e.message| <= MaxMessageLength
  }

  /** A stored record: it passed the schema, its owner is lower case, it is
      filed under its own token id, and its history is non-empty and made of
      states the record once had. */
  predicate ValidRecord(key: int, r: Record) {
    && r.tokenId == key
    && PassesSchema(r)
    && IsLower(r.owner)
    && |r.changeHistory| >= 1
    && forall i :: 0 <= i < |r.changeHistory| ==> ValidEntry(r.changeHistory[i])
  }

  predicate Valid(s: Store) {
    forall k :: k in s ==> ValidRecord(k, s[k])
  }

  /** `x` is one of the records of `s`. */
  ghost predicate IsStored(s: Store, x: Record) {
    exists k :: k in s && s[k] == x
  }

  /** Token ids are unique: two stored records with the same token id are
      the same record. */
  lemma TokenIdUnique(s: Store, k1: int, k2: int)
    requires Valid(s) && k1 in s && k2 in s
    requires s[k1].tokenId == s[k2].tokenId
    ensures k1 == k2 && s[k1] == s[k2]
  {
  }

  /** Timestamps as the source stamps them when one clock reading serves a
      whole request: the history is in time order, it starts at creation,
      and the latest entry was appended at the last update. */
  predicate Chronological(r: Record) {
    && |r.changeHistory| >= 1
    && r.changeHistory[0].timestamp == r.createdAt
    && r.changeHistory[|r.changeHistory| - 1].timestamp == r.lastUpdated
    && forall i, j :: 0 <= i < j < |r.changeHistory| ==>
         r.changeHistory[i].timestamp <= r.changeHistory[j].timestamp
  }

  /** Every record of the store was last touched no later than `now`. */
  predicate NotAfter(s: Store, now: nat) {
    forall k :: k in s ==> s[k].lastUpdated <= now
  }

  /** `s'` grows `s` the way the routes allow: records are never removed,
      their token id, owner and creation time never change, and their
      history is only ever extended at the end. */
  predicate Extends(s: Store, s': Store) {
    forall k :: k in s ==>
      && k in s'
      && s'[k].tokenId == s[k].tokenId
      && s'[k].owner == s[k].owner
      && s'[k].createdAt == s[k].createdAt
      && |s[k].changeHistory| <= |s'[k].changeHistory|
      && s'[k].changeHistory[..|s[k].changeHistory|] == s[k].changeHistory
  }

  lemma ExtendsReflexive(s: Store)
    ensures Extends(s, s)
  {
    forall k | k in s
      ensures s[k].changeHistory[..|s[k].changeHistory|] == s[k].changeHistory
    {
    }
  }

  lemma ExtendsTransitive(s1: Store, s2: Store, s3: Store)
    requires Extends(s1, s2) && Extends(s2, s3)
    ensures Extends(s1, s3)
  {
    forall k | k in s1
      ensures s3[k].changeHistory[..|s1[k].changeHistory|] == s1[k].changeHistory
    {
      var n1, n2 := |s1[k].changeHistory|, |s2[k].changeHistory|;
      assert s3[k].changeHistory[..n1] == s3[k].changeHistory[..n2][..n1];
    }
  }
}
