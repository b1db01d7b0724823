/** The HTTP routes of the metadata service as operations on the store:
    minting and updating a record, and the read projections (the record,
    its history, the paged list, the owner filter and the token metadata).
    Each mutating route answers with the store it leaves behind and either
    the saved record or the error it responds with. */
module NftRoutes {
  import opened Wrappers
  import opened Text
  import opened NftMetadata
  import opened RecordOrder
  import ImageGenerator

  /** The error responses, with the status code each is sent with. */
  datatype ApiError =
    | MissingFields     // 400
    | AlreadyExists     // 400
    | NotFound          // 404
    | Unauthorized      // 403
    | NoChanges         // 400
    | ValidationFailed  // 500: the schema refused the save
    | BadQuery          // 500: the database refused the paging values
    | InvalidTokenId    // 500: the database cannot cast a non-numeric path to a token id

  function StatusCode(e: ApiError): (code: nat)
    ensures code == 400 <==> e in {MissingFields, AlreadyExists, NoChanges}
    ensures code == 403 <==> e == Unauthorized
    ensures code == 404 <==> e == NotFound
    ensures code == 500 <==> e in {ValidationFailed, BadQuery, InvalidTokenId}
  {
    match e
    case MissingFields => 400
    case AlreadyExists => 400
    case NotFound => 404
    case Unauthorized => 403
    case NoChanges => 400
    case ValidationFailed => 500
    case BadQuery => 500
    case InvalidTokenId => 500
  }

  /** The JSON body of a mint request; an absent field is `None`. */
  datatype MintBody = MintBody(tokenId: Option<int>, owner: Option<string>, mood: Option<int>, message: Option<string>)

  /** The JSON body of an update request; an absent field is `None`. */
  datatype UpdateBody = UpdateBody(mood: Option<int>, message: Option<string>, userAddress: Option<string>)

  datatype Response = Response(store: Store, result: Result<Record, ApiError>)

  /** `!v` for an optional string: absent or empty. */
  predicate Falsy(v: Option<string>) {
    v.None? || v.value == ""
  }

  /** The record a path segment designates, found by its `parseInt` value. */
  function Lookup(s: Store, path: string): (r: Option<Record>)
    ensures r.Some? <==> ParseInt(path).Some? && ParseInt(path).value in s
    ensures r.Some? ==> r.value == s[ParseInt(path).value]
  {
    match ParseInt(path)
    case Some(k) => if k in s then Some(s[k]) else None
    case None => None
  }

  /** Why a route that looks a path up finds nothing: a path that does not
      parse makes the query itself fail, any other path is simply absent. */
  function MissError(path: string): (e: ApiError)
    ensures e == InvalidTokenId <==> ParseInt(path).None?
    ensures e == NotFound <==> ParseInt(path).Some?
  {
    if ParseInt(path).None? then InvalidTokenId else NotFound
  }

  /** The owner check of the update route: equal after lower-casing both. */
  predicate Authorized(r: Record, userAddress: string) {
    ToLower(r.owner) == ToLower(userAddress)
  }

  /** The no-change guard: strict equality of both fields. An absent
      message is `undefined`, which equals no stored string. */
  predicate SameAsStored(r: Record, body: UpdateBody) {
    body.mood == Some(r.mood) && body.message == Some(r.message)
  }

  // ---------------------------------------------------------------------
  // POST /nft/mint
  // ---------------------------------------------------------------------

  function MintedRecord(key: int, body: MintBody, owner: string, now: nat): Record {
    var mood := body.mood.GetOr(DefaultMood);
    var message := body.message.GetOr(DefaultMessage);
    Record(key, ToLower(owner), mood, message, [Entry(mood, message, now)], now, now)
  }

  /** Creates the record of a freshly minted token. */
  function Mint(s: Store, body: MintBody, now: nat): (r: Response)
    ensures r.result.Failure? ==> r.store == s
    ensures r.result == Failure(MissingFields) <==> body.tokenId.None? || Falsy(body.owner)
    ensures r.result == Failure(AlreadyExists) <==>
      body.tokenId.Some? && !Falsy(body.owner) && body.tokenId.value in s
    ensures r.result.Success? <==>
      && body.tokenId.Some? && !Falsy(body.owner) && body.tokenId.value !in s
      && MoodInRange(body.mood.GetOr(DefaultMood))
      && |body.message.GetOr(DefaultMessage)| <= MaxMessageLength
    ensures r.result.Success? ==>
      var rec := r.result.value;
      && rec.tokenId == body.tokenId.value
      && r.store == s[rec.tokenId := rec]
      && rec.owner == ToLower(body.owner.value)
      && rec.mood == body.mood.GetOr(DefaultMood)
      && rec.message == body.message.GetOr(DefaultMessage)
      && rec.changeHistory == [Entry(rec.mood, rec.message, now)]
      && rec.createdAt == now && rec.lastUpdated == now
  {
    if body.tokenId.None? || Falsy(body.owner) then Response(s, Failure(MissingFields))
    else if body.tokenId.value in s then Response(s, Failure(AlreadyExists))
    else
      var rec := MintedRecord(body.tokenId.value, body, body.owner.value, now);
      if !PassesSchema(rec) then Response(s, Failure(ValidationFailed))
      else Response(s[rec.tokenId := rec], Success(rec))
  }

  // ---------------------------------------------------------------------
  // PUT /nft/:tokenId
  // ---------------------------------------------------------------------

  function UpdatedRecord(r: Record, mood: int, message: Option<string>, now: nat): Record {
    r.(mood := mood,
       message := message.GetOr(DefaultMessage),
       changeHistory := r.changeHistory + [Entry(r.mood, r.message, now)],
       lastUpdated := now)
  }

  /** Updates the mood and message of the record at `path`: required
      fields, existence, ownership and the no-change guard are checked in
      that order; then the pre-update state is appended to the history. */
  function Update(s: Store, path: string, body: UpdateBody, now: nat): (r: Response)
    ensures r.result.Failure? ==> r.store == s
    ensures r.result == Failure(MissingFields) <==> body.mood.None? || Falsy(body.userAddress)
    ensures r.result == Failure(InvalidTokenId) <==>
      body.mood.Some? && !Falsy(body.userAddress) && ParseInt(path).None?
    ensures r.result == Failure(NotFound) <==>
      body.mood.Some? && !Falsy(body.userAddress) && ParseInt(path).Some? && Lookup(s, path).None?
    ensures r.result == Failure(Unauthorized) <==>
      && body.mood.Some? && !Falsy(body.userAddress) && Lookup(s, path).Some?
      && !Authorized(Lookup(s, path).value, body.userAddress.value)
    ensures r.result == Failure(NoChanges) <==>
      && body.mood.Some? && !Falsy(body.userAddress) && Lookup(s, path).Some?
      && Authorized(Lookup(s, path).value, body.userAddress.value)
      && SameAsStored(Lookup(s, path).value, body)
    ensures r.result.Success? <==>
      && body.mood.Some? && !Falsy(body.userAddress) && Lookup(s, path).Some?
      && Authorized(Lookup(s, path).value, body.userAddress.value)
      && !SameAsStored(Lookup(s, path).value, body)
      && MoodInRange(body.mood.value)
      && |body.message.GetOr(DefaultMessage)| <= MaxMessageLength
    ensures r.result.Success? ==>
      var prev := Lookup(s, path).value;
      var rec := r.result.value;
      && r.store == s[ParseInt(path).value := rec]
      && rec.tokenId == prev.tokenId && rec.owner == prev.owner && rec.createdAt == prev.createdAt
      && rec.changeHistory == prev.changeHistory + [Entry(prev.mood, prev.message, now)]
      && rec.mood == body.mood.value
      && rec.message == body.message.GetOr(DefaultMessage)
      && rec.lastUpdated == now
  {
    if body.mood.None? || Falsy(body.userAddress) then Response(s, Failure(MissingFields))
    else match Lookup(s, path)
      case None => Response(s, Failure(MissError(path)))
      case Some(nft) =>
        if !Authorized(nft, body.userAddress.value) then Response(s, Failure(Unauthorized))
        else if SameAsStored(nft, body) then Response(s, Failure(NoChanges))
        else
          var rec := UpdatedRecord(nft, body.mood.value, body.message, now);
          if !PassesSchema(rec) then Response(s, Failure(ValidationFailed))
          else Response(s[ParseInt(path).value := rec], Success(rec))
  }

  // ---------------------------------------------------------------------
  // What the mutating routes preserve
  // ---------------------------------------------------------------------

  /** Minting keeps every schema invariant and only adds a record. */
  lemma MintPreservesValid(s: Store, body: MintBody, now: nat)
    requires Valid(s)
    ensures Valid(Mint(s, body, now).store)
    ensures Extends(s, Mint(s, body, now).store)
  {
    var r := Mint(s, body, now);
    if r.result.Success? {
      var rec := r.result.value;
      assert ValidEntry(rec.changeHistory[0]);
      assert forall k :: k in s ==> r.store[k] == s[k];
    }
  }

  /** Updating keeps every schema invariant, the record's identity, owner
      and creation time, and only extends its history. */
  lemma UpdatePreservesValid(s: Store, path: string, body: UpdateBody, now: nat)
    requires Valid(s)
    ensures Valid(Update(s, path, body, now).store)
    ensures Extends(s, Update(s, path, body, now).store)
  {
    var r := Update(s, path, body, now);
    if r.result.Success? {
      var k := ParseInt(path).value;
      var prev, rec := s[k], r.result.value;
      assert ValidRecord(k, prev);
      assert ValidEntry(Entry(prev.mood, prev.message, now));
      assert forall i :: 0 <= i < |rec.changeHistory| ==> ValidEntry(rec.changeHistory[i]) by {
        forall i | 0 <= i < |rec.changeHistory|
          ensures ValidEntry(rec.changeHistory[i])
        {
          if i < |prev.changeHistory| {
            assert rec.changeHistory[i] == prev.changeHistory[i];
          }
        }
      }
      assert ValidRecord(k, rec);
      assert rec.changeHistory[..|prev.changeHistory|] == prev.changeHistory;
    }
  }

  /** A second mint of a token id is refused and the first record stays as
      it was. */
  lemma MintTwiceRejected(s: Store, first: MintBody, second: MintBody, t1: nat, t2: nat)
    requires Mint(s, first, t1).result.Success?
    requires second.tokenId == first.tokenId && !Falsy(second.owner)
    ensures var s1 := Mint(s, first, t1).store;
      && Mint(s1, second, t2).result == Failure(AlreadyExists)
      && Mint(s1, second, t2).store == s1
      && s1[first.tokenId.value] == Mint(s, first, t1).result.value
  {
  }

  /** With a clock that does not run backwards, a mint and an update keep
      every record's timestamps in order. */
  lemma MintKeepsChronology(s: Store, body: MintBody, now: nat)
    requires forall k :: k in s ==> Chronological(s[k])
    requires NotAfter(s, now)
    ensures var s' := Mint(s, body, now).store;
      NotAfter(s', now) && forall k :: k in s' ==> Chronological(s'[k])
  {
  }

  lemma UpdateKeepsChronology(s: Store, path: string, body: UpdateBody, now: nat)
    requires forall k :: k in s ==> Chronological(s[k])
    requires NotAfter(s, now)
    ensures var s' := Update(s, path, body, now).store;
      NotAfter(s', now) && forall k :: k in s' ==> Chronological(s'[k])
  {
    var r := Update(s, path, body, now);
    if r.result.Success? {
      var k := ParseInt(path).value;
      var prev, rec := s[k], r.result.value;
      var n := |prev.changeHistory|;
      assert rec.changeHistory[n].timestamp == now;
      assert forall i :: 0 <= i < n ==> rec.changeHistory[i] == prev.changeHistory[i];
      assert Chronological(rec);
    }
  }

  // ---------------------------------------------------------------------
  // GET /nft/:tokenId and GET /nft/:tokenId/history
  // ---------------------------------------------------------------------

  /** A record together with the name of its mood. */
  datatype NftView = NftView(nft: Record, moodName: string)

  function ViewOf(r: Record): NftView {
    NftView(r, ImageGenerator.MoodName(r.mood))
  }

  function GetNft(s: Store, path: string): (r: Result<NftView, ApiError>)
    ensures r.Success? <==> Lookup(s, path).Some?
    ensures r.Failure? ==> r.error == MissError(path)
    ensures r.Success? ==>
      && r.value.nft == Lookup(s, path).value
      && r.value.moodName == ImageGenerator.MoodName(r.value.nft.mood)
      && (r.value.moodName == ImageGenerator.UnknownMood <==> !MoodInRange(r.value.nft.mood))
  {
    match Lookup(s, path)
    case None => Failure(MissError(path))
    case Some(nft) =>
      ImageGenerator.MoodNameUnknownIff(nft.mood);
      Success(ViewOf(nft))
  }

  datatype HistoryItem = HistoryItem(entry: Entry, moodName: string)

  datatype HistoryView = HistoryView(tokenId: string, currentMood: string, history: seq<HistoryItem>, totalChanges: nat)

  /** The history of a record, each entry with its mood name, and the count
      of entries as `totalChanges`. */
  function GetHistory(s: Store, path: string): (r: Result<HistoryView, ApiError>)
    ensures r.Success? <==> Lookup(s, path).Some?
    ensures r.Failure? ==> r.error == MissError(path)
    ensures r.Success? ==>
      var h := Lookup(s, path).value.changeHistory;
      && r.value.tokenId == path
      && r.value.currentMood == ImageGenerator.MoodName(Lookup(s, path).value.mood)
      && r.value.totalChanges == |r.value.history| == |h|
      && forall i :: 0 <= i < |h| ==>
           r.value.history[i].entry == h[i]
           && r.value.history[i].moodName == ImageGenerator.MoodName(h[i].mood)
  {
    match Lookup(s, path)
    case None => Failure(MissError(path))
    case Some(nft) =>
      var h := nft.changeHistory;
      var items := seq(|h|, i requires 0 <= i < |h| => HistoryItem(h[i], ImageGenerator.MoodName(h[i].mood)));
      Success(HistoryView(path, ImageGenerator.MoodName(nft.mood), items, |h|))
  }

  // ---------------------------------------------------------------------
  // GET /metadata/:tokenId
  // ---------------------------------------------------------------------

  datatype AttributeValue = Text(text: string) | Count(n: nat) | Date(time: nat)

  datatype Attribute = Attribute(traitType: string, value: AttributeValue, displayType: Option<string>)

  /** The ERC-721 metadata document, without the image. */
  datatype TokenMetadata = TokenMetadata(name: string, description: string, attributes: seq<Attribute>, externalUrl: string)

  const NoMessage := "No message"

  /** `message || 'No message'`. */
  function ShownMessage(message: string): (r: string)
    ensures r != ""
    ensures message != "" ==> r == message
  {
    if message == "" then NoMessage else message
  }

  function MetadataOf(path: string, nft: Record): TokenMetadata {
    var moodName := ImageGenerator.MoodName(nft.mood);
    TokenMetadata(
      "Mood NFT #" + path,
      "An adaptive mood NFT expressing: " + moodName + ". \"" + ShownMessage(nft.message) + "\"",
      [ Attribute("Mood", Text(moodName), None),
        Attribute("Message", Text(ShownMessage(nft.message)), None),
        Attribute("Last Updated", Date(nft.lastUpdated), Some("date")),
        Attribute("Total Changes", Count(|nft.changeHistory|), None) ],
      "https://yoursite.com/nft/" + path)
  }

  /** The metadata of the record at `path`. "Total Changes" is the length of
      its history, the same count the history route reports. */
  function Metadata(s: Store, path: string): (r: Result<TokenMetadata, ApiError>)
    ensures r.Success? <==> Lookup(s, path).Some?
    ensures r.Failure? ==> r.error == MissError(path)
    ensures r.Success? ==>
      var nft := Lookup(s, path).value;
      && |r.value.attributes| == 4
      && r.value.attributes[3].traitType == "Total Changes"
      && r.value.attributes[3].value == Count(|nft.changeHistory|)
      && r.value.attributes[3].value == Count(GetHistory(s, path).value.totalChanges)
      && r.value.attributes[0].value == Text(ImageGenerator.MoodName(nft.mood))
      && r.value.attributes[1].value.Text? && r.value.attributes[1].value.text != ""
      && (nft.message != "" ==> r.value.attributes[1].value == Text(nft.message))
  {
    match Lookup(s, path)
    case None => Failure(MissError(path))
    case Some(nft) => Success(MetadataOf(path, nft))
  }

  // ---------------------------------------------------------------------
  // GET /nfts
  // ---------------------------------------------------------------------

  const DefaultLimit := 50
  const DefaultSkip := 0

  /** `parseInt(q) || fallback`: a missing, non-numeric or zero value gives
      the fallback. */
  function NumberOr(q: Option<string>, fallback: int): (n: int)
    ensures q.None? ==> n == fallback
    ensures q.Some? && ParseInt(q.value).None? ==> n == fallback
    ensures q.Some? && ParseInt(q.value) == Some(0) ==> n == fallback
    ensures q.Some? && ParseInt(q.value).Some? && ParseInt(q.value).value != 0 ==> n == ParseInt(q.value).value
  {
    match q
    case None => fallback
    case Some(t) =>
      match ParseInt(t)
      case None => fallback
      case Some(v) => if v == 0 then fallback else v
  }

  /** A record as the list route shows it. */
  datatype Summary = Summary(tokenId: int, owner: string, mood: int, moodName: string, message: string, lastUpdated: nat, createdAt: nat)

  function SummaryOf(r: Record): Summary {
    Summary(r.tokenId, r.owner, r.mood, ImageGenerator.MoodName(r.mood), r.message, r.lastUpdated, r.createdAt)
  }

  datatype ListView = ListView(count: nat, total: nat, nfts: seq<Summary>)

  /** The whole collection, newest update first: a permutation of the
      stored records that holds each once per key. */
  ghost function ByNewest(s: Store): (all: seq<Record>)
    ensures |all| == |s|
    ensures SortedDesc(all, ByLastUpdated)
    ensures forall x :: multiset(all)[x] == |KeysHolding(s, x)|
    ensures forall x :: x in all <==> IsStored(s, x)
  {
    var all := Sort(RecordList(s), ByLastUpdated);
    assert |multiset(all)| == |multiset(RecordList(s))|;
    assert forall x :: x in all <==> x in multiset(all);
    assert forall x :: x in RecordList(s) <==> x in multiset(RecordList(s));
    all
  }

  /** The page `skip` records into the collection, newest update first, at
      most `|limit|` long (the database reads a negative limit by its
      magnitude). */
  ghost function ListedRecords(s: Store, limit: int, skip: nat): (page: seq<Record>)
    ensures |page| == Min(Abs(limit), if skip <= |s| then |s| - skip else 0)
    ensures forall i :: 0 <= i < |page| ==> page[i] == ByNewest(s)[skip + i]
    ensures forall i :: 0 <= i < |page| ==> IsStored(s, page[i])
    ensures SortedDesc(page, ByLastUpdated)
  {
    var all := ByNewest(s);
    var page := Window(all, skip, Abs(limit));
    PageStored(s, all, page);
    page
  }

  lemma PageStored(s: Store, all: seq<Record>, page: seq<Record>)
    requires forall x :: x in all <==> IsStored(s, x)
    requires forall i :: 0 <= i < |page| ==> page[i] in all
    ensures forall i :: 0 <= i < |page| ==> IsStored(s, page[i])
  {
  }

  /** The first page holds the newest records: no stored record left off
      it was updated later than any record on it. */
  lemma ListedRecordsNewestFirst(s: Store, limit: int, x: Record)
    requires IsStored(s, x)
    ensures var page := ListedRecords(s, limit, 0);
      x !in page ==> forall i :: 0 <= i < |page| ==> x.lastUpdated <= page[i].lastUpdated
  {
    var page := ListedRecords(s, limit, 0);
    if x !in page {
      OffPrefixNoNewer(ByNewest(s), page, ByLastUpdated, x);
    }
  }

  /** At most `limit` elements of `all` starting at `skip`. */
  function Window(all: seq<Record>, skip: nat, limit: nat): (page: seq<Record>)
    ensures |page| == Min(limit, if skip <= |all| then |all| - skip else 0)
    ensures forall i :: 0 <= i < |page| ==> skip + i < |all| && page[i] == all[skip + i]
    ensures forall i :: 0 <= i < |page| ==> page[i] in all
    ensures SortedDesc(all, ByLastUpdated) ==> SortedDesc(page, ByLastUpdated)
  {
    var rest := if skip <= |all| then all[skip..] else [];
    var page := rest[..Min(limit, |rest|)];
    assert forall i :: 0 <= i < |page| ==> page[i] == all[skip + i];
    page
  }

  /** GET /nfts: the listed page, with the collection size as `total`. A
      negative skip is refused by the database. */
  ghost function ListNfts(s: Store, limitQuery: Option<string>, skipQuery: Option<string>): (r: Result<ListView, ApiError>)
    ensures var limit, skip := NumberOr(limitQuery, DefaultLimit), NumberOr(skipQuery, DefaultSkip);
      && (r.Failure? <==> skip < 0)
      && (r.Failure? ==> r.error == BadQuery)
      && (r.Success? ==>
            var page := ListedRecords(s, limit, skip);
            && r.value.total == |s|
            && r.value.count == |r.value.nfts| == |page|
            && forall i :: 0 <= i < |page| ==> r.value.nfts[i] == SummaryOf(page[i]))
  {
    var limit, skip := NumberOr(limitQuery, DefaultLimit), NumberOr(skipQuery, DefaultSkip);
    if skip < 0 then Failure(BadQuery)
    else
      var nfts := Summaries(ListedRecords(s, limit, skip));
      Success(ListView(|nfts|, |s|, nfts))
  }

  /** One summary per record of the page, in page order. */
  function Summaries(page: seq<Record>): (nfts: seq<Summary>)
    ensures |nfts| == |page|
    ensures forall i :: 0 <= i < |page| ==> nfts[i] == SummaryOf(page[i])
  {
    seq(|page|, i requires 0 <= i < |page| => SummaryOf(page[i]))
  }

  function Min(a: int, b: int): int {
    if a <= b then a else b
  }

  function Abs(a: int): nat {
    if a < 0 then -a else a
  }

  // ---------------------------------------------------------------------
  // GET /nft/user/:address
  // ---------------------------------------------------------------------

  datatype OwnerView = OwnerView(owner: string, count: nat, nfts: seq<NftView>)

  /** The stored records whose owner is `owner`, newest creation first. */
  ghost function OwnedRecords(s: Store, owner: string): (r: seq<Record>)
    ensures forall x :: x in r <==> IsStored(s, x) && x.owner == owner
    ensures forall k :: k in s && s[k].owner == owner ==> s[k] in r
    ensures forall x :: multiset(r)[x] == if x.owner == owner then |KeysHolding(s, x)| else 0
    ensures SortedDesc(r, ByCreatedAt)
  {
    var owned := FilterOwner(RecordList(s), owner);
    FilterOwnerCounts(RecordList(s), owner);
    var sorted := Sort(owned, ByCreatedAt);
    forall x
      ensures x in sorted <==> x in owned
    {
      assert x in sorted <==> x in multiset(sorted);
    }
    sorted
  }

  function NftsOf(views: seq<NftView>): (r: seq<Record>)
    ensures |r| == |views|
    ensures forall i :: 0 <= i < |views| ==> r[i] == views[i].nft
  {
    seq(|views|, i requires 0 <= i < |views| => views[i].nft)
  }

  /** Each record with its mood name; reading the records back gives `rs`. */
  function ViewsOf(rs: seq<Record>): (r: seq<NftView>)
    ensures |r| == |rs|
    ensures forall i :: 0 <= i < |rs| ==> r[i].nft == rs[i]
    ensures forall i :: 0 <= i < |rs| ==> r[i].moodName == ImageGenerator.MoodName(rs[i].mood)
    ensures NftsOf(r) == rs
  {
    var r := seq(|rs|, i requires 0 <= i < |rs| => ViewOf(rs[i]));
    assert NftsOf(r) == rs;
    r
  }

  /** GET /nft/user/:address: the records whose stored owner equals the
      lower-cased address, each with its mood name, and their count. */
  ghost function NftsByOwner(s: Store, address: string): (r: OwnerView)
    ensures r.owner == address && r.count == |r.nfts|
    ensures NftsOf(r.nfts) == OwnedRecords(s, ToLower(address))
    ensures forall i :: 0 <= i < |r.nfts| ==>
      r.nfts[i].moodName == ImageGenerator.MoodName(r.nfts[i].nft.mood)
  {
    var views := ViewsOf(OwnedRecords(s, ToLower(address)));
    OwnerView(address, |views|, views)
  }

  /** The by-owner listing holds exactly the stored records of the
      lower-cased address, every one of them, newest creation first; in a
      valid store each of them is listed exactly once. */
  lemma NftsByOwnerListsOwned(s: Store, address: string)
    ensures var listed := NftsOf(NftsByOwner(s, address).nfts);
      && (forall x :: x in listed <==> IsStored(s, x) && x.owner == ToLower(address))
      && (forall k :: k in s && s[k].owner == ToLower(address) ==> s[k] in listed)
      && (Valid(s) ==> forall k :: k in s ==>
            multiset(listed)[s[k]] == if s[k].owner == ToLower(address) then 1 else 0)
      && SortedDesc(listed, ByCreatedAt)
  {
    if Valid(s) {
      forall k | k in s
        ensures KeysHolding(s, s[k]) == {k}
      {
        FiledOnce(s, k);
      }
    }
  }

  /** The records of `rs` whose owner is `owner`, in order. */
  function FilterOwner(rs: seq<Record>, owner: string): (r: seq<Record>)
    ensures forall x :: x in r <==> x in rs && x.owner == owner
  {
    if rs == [] then []
    else
      var tail := FilterOwner(rs[1..], owner);
      assert forall x :: x in rs <==> x == rs[0] || x in rs[1..];
      if rs[0].owner == owner then [rs[0]] + tail else tail
  }

  /** The owner filter keeps each record of the owner as often as the
      input holds it. */
  lemma {:induction false} FilterOwnerCounts(rs: seq<Record>, owner: string)
    ensures forall x :: multiset(FilterOwner(rs, owner))[x] == if x.owner == owner then multiset(rs)[x] else 0
    decreases |rs|
  {
    if rs != [] {
      FilterOwnerCounts(rs[1..], owner);
      assert rs == [rs[0]] + rs[1..];
    }
  }

  /** Because stored owners are lower case, the owner filter matches the
      route's own case-insensitive owner check: a stored record is listed
      for an address exactly when that address would be authorized on it. */
  lemma ByOwnerMatchesAuthorization(s: Store, address: string, k: int)
    requires Valid(s) && k in s
    ensures s[k].owner == ToLower(address) <==> Authorized(s[k], address)
  {
    ToLowerOfLower(s[k].owner);
  }
}
