/**
 * Feed assembly: the read side of the message repository
 * (complete/src/repository/message/message_repo.rs, lines 109-314).
 *
 * The SQL queries are not modelled: the primary query's outcome is an input,
 * and each second-pass lookup is a function parameter from what is bound to
 * the query to what the query returns. Everything else is the repository's
 * own in-memory logic.
 */
module MessageRepo {
  import opened Wrappers
  import opened MessageModels

  type Row = MessageWithProfile
  type Enriched = MessageWithBroadcast

  /** The single-message broadcast lookup: the bound link id to the target row found, if any. */
  type SingleLookup = Option<int> -> Result<Option<Row>, DbError>
  /** The batched broadcast lookup: the bound id list to the rows found. */
  type BatchLookup = seq<int> -> Result<seq<Row>, DbError>

  // ---------------------------------------------------------------------------
  // Merging one row with its broadcast target
  // ---------------------------------------------------------------------------

  /**
   * The value `append_broadcast_msg_to_msg` builds: the primary row's nine
   * message-and-author fields, and the target's fields when there is a target.
   * The primary row's own link id is not carried over.
   */
  function Merged(broadcast: Option<Row>, msg: Row): (r: Enriched)
    ensures PrimaryView(r) == ViewOf(msg)
    ensures BroadcastView(r) == OptionalViewOf(broadcast)
    ensures broadcast.None? <==> Unenriched(r)
    ensures broadcast.Some? ==> r.messageBroadcastId == Some(broadcast.value.id)
  {
    var plain := MessageWithBroadcast(
      msg.id, msg.updatedAt, msg.body, msg.likes, msg.image,
      msg.userId, msg.userName, msg.fullName, msg.avatar,
      None, None, None, None, None, None, None, None, None);
    match broadcast
    case None => plain
    case Some(b) =>
      plain.(messageBroadcastId := Some(b.id),
             messageBroadcastUpdatedAt := Some(b.updatedAt),
             messageBroadcastBody := b.body,
             messageBroadcastLikes := Some(b.likes),
             messageBroadcastImage := b.image,
             messageBroadcastUserId := Some(b.userId),
             messageBroadcastUserName := Some(b.userName),
             messageBroadcastFullName := Some(b.fullName),
             messageBroadcastAvatar := b.avatar)
  }

  /**
   * `append_broadcast_msg_to_msg`: start from a row with no broadcast data,
   * then overwrite the broadcast fields one by one when a target is given.
   */
  method AppendBroadcastMsgToMsg(broadcast: Option<Row>, msg: Row) returns (finalMessage: Enriched)
    ensures finalMessage == Merged(broadcast, msg)
  {
    finalMessage := MessageWithBroadcast(
      msg.id, msg.updatedAt, msg.body, msg.likes, msg.image,
      msg.userId, msg.userName, msg.fullName, msg.avatar,
      None, None, None, None, None, None, None, None, None);
    if broadcast.Some? {
      var b := broadcast.value;
      finalMessage := finalMessage.(messageBroadcastId := Some(b.id));
      finalMessage := finalMessage.(messageBroadcastUpdatedAt := Some(b.updatedAt));
      finalMessage := finalMessage.(messageBroadcastBody := b.body);
      finalMessage := finalMessage.(messageBroadcastLikes := Some(b.likes));
      finalMessage := finalMessage.(messageBroadcastImage := b.image);
      finalMessage := finalMessage.(messageBroadcastUserId := Some(b.userId));
      finalMessage := finalMessage.(messageBroadcastUserName := Some(b.userName));
      finalMessage := finalMessage.(messageBroadcastFullName := Some(b.fullName));
      finalMessage := finalMessage.(messageBroadcastAvatar := b.avatar);
    }
  }

  // ---------------------------------------------------------------------------
  // Matching page rows against the batch result
  // ---------------------------------------------------------------------------

  /** The `find` over the batch result: the first candidate whose message id, wrapped in `Some`, equals `key`. */
  function FindBroadcast(candidates: seq<Row>, key: Option<int>): (r: Option<Row>)
    ensures r.Some? ==> r.value in candidates && Some(r.value.id) == key
    ensures r.None? <==> forall i :: 0 <= i < |candidates| ==> Some(candidates[i].id) != key
  {
    if candidates == [] then None
    else if Some(candidates[0].id) == key then Some(candidates[0])
    else FindBroadcast(candidates[1..], key)
  }

  /** Of several candidates with the key, the earliest one is chosen. */
  lemma {:induction false} FindBroadcastIsFirst(candidates: seq<Row>, key: Option<int>, i: int)
    requires 0 <= i < |candidates| && Some(candidates[i].id) == key
    requires forall j :: 0 <= j < i ==> Some(candidates[j].id) != key
    ensures FindBroadcast(candidates, key) == Some(candidates[i])
  {
    if i > 0 {
      var tail := candidates[1..];
      forall j | 0 <= j < i - 1
        ensures Some(tail[j].id) != key
      {
        assert tail[j] == candidates[j + 1];
      }
      FindBroadcastIsFirst(tail, key, i - 1);
    }
  }

  /**
   * The match of one page row (lines 255-263): nothing when the batch lookup
   * failed, otherwise the first candidate whose message id equals the row's
   * link id.
   */
  function MatchFor(found: Option<seq<Row>>, row: Row): (r: Option<Row>)
    ensures found.None? || row.messageBroadcastId.None? ==> r.None?
    ensures r.Some? ==> found.Some? && r.value in found.value && Some(r.value.id) == row.messageBroadcastId
    ensures found.Some? && (exists c :: c in found.value && Some(c.id) == row.messageBroadcastId) ==> r.Some?
  {
    if found.Some? then FindBroadcast(found.value, row.messageBroadcastId) else None
  }

  /** The page after merging, as a value: one merged row per page row, in page order. */
  function MergedPage(found: Option<seq<Row>>, rows: seq<Row>): (r: seq<Enriched>)
    ensures |r| == |rows|
    ensures forall i :: 0 <= i < |rows| ==> r[i] == Merged(MatchFor(found, rows[i]), rows[i])
  {
    if rows == [] then []
    else [Merged(MatchFor(found, rows[0]), rows[0])] + MergedPage(found, rows[1..])
  }

  /**
   * `append_broadcast_msgs_to_msgs`: push the merge of each page row, in
   * order, onto an initially empty list.
   */
  method AppendBroadcastMsgsToMsgs(found: Option<seq<Row>>, rows: seq<Row>) returns (finalList: seq<Enriched>)
    ensures finalList == MergedPage(found, rows)
  {
    finalList := [];
    var i := 0;
    while i < |rows|
      invariant 0 <= i <= |rows|
      invariant |finalList| == i
      invariant forall j :: 0 <= j < i ==> finalList[j] == Merged(MatchFor(found, rows[j]), rows[j])
    {
      var matching := MatchFor(found, rows[i]);
      var merged := AppendBroadcastMsgToMsg(matching, rows[i]);
      finalList := finalList + [merged];
      i := i + 1;
    }
  }

  // ---------------------------------------------------------------------------
  // Choosing which page rows to resolve
  // ---------------------------------------------------------------------------

  /** The filter predicate of `select_messages`: a present, positive link id. */
  predicate HasBroadcast(m: Row) {
    m.messageBroadcastId.Some? && m.messageBroadcastId.value > 0
  }

  /** The filter/collect of `select_messages`: the rows with a present, positive link id, in page order. */
  function WithBroadcasts(rows: seq<Row>): (r: seq<Row>)
    ensures |r| <= |rows|
    ensures forall m :: m in r ==> m in rows && HasBroadcast(m)
    ensures forall m :: m in rows && HasBroadcast(m) ==> m in r
  {
    if rows == [] then []
    else if HasBroadcast(rows[0]) then [rows[0]] + WithBroadcasts(rows[1..])
    else WithBroadcasts(rows[1..])
  }

  /** Filtering a concatenation filters each part and keeps them in order. */
  lemma {:induction false} WithBroadcastsAppend(a: seq<Row>, b: seq<Row>)
    ensures WithBroadcasts(a + b) == WithBroadcasts(a) + WithBroadcasts(b)
  {
    if a != [] {
      assert (a + b)[0] == a[0];
      assert (a + b)[1..] == a[1..] + b;
      WithBroadcastsAppend(a[1..], b);
    } else {
      assert a + b == b;
    }
  }

  /**
   * The map/collect of `get_broadcasting_messages_of_messages`: each row's
   * link id, unwrapped. The unwrap panics on a row without one, so every row
   * must carry one.
   */
  function BroadcastIds(rows: seq<Row>): (ids: seq<int>)
    requires forall m :: m in rows ==> m.messageBroadcastId.Some?
    ensures |ids| == |rows|
    ensures forall i :: 0 <= i < |rows| ==> rows[i].messageBroadcastId == Some(ids[i])
  {
    if rows == [] then []
    else [rows[0].messageBroadcastId.value] + BroadcastIds(rows[1..])
  }

  /** The id list that `select_messages` binds to the batched lookup. */
  function LookupIds(rows: seq<Row>): seq<int> {
    BroadcastIds(WithBroadcasts(rows))
  }

  /** The ids sent are exactly the present, positive link ids of the page. */
  lemma LookupIdsAreLinkIds(rows: seq<Row>)
    ensures forall k :: k in LookupIds(rows) ==> k > 0
    ensures forall k :: k in LookupIds(rows) <==> exists m :: m in rows && m.messageBroadcastId == Some(k) && k > 0
  {
    var kept := WithBroadcasts(rows);
    var ids := LookupIds(rows);
    forall k | k in ids
      ensures k > 0 && exists m :: m in rows && m.messageBroadcastId == Some(k)
    {
      var i :| 0 <= i < |ids| && ids[i] == k;
      assert kept[i] in kept;
    }
    forall m | m in rows && HasBroadcast(m)
      ensures m.messageBroadcastId.value in ids
    {
      var i :| 0 <= i < |kept| && kept[i] == m;
      assert ids[i] == m.messageBroadcastId.value;
    }
  }

  /** The ids of a concatenated page are the ids of each part, in order. */
  lemma {:induction false} LookupIdsAppend(a: seq<Row>, b: seq<Row>)
    ensures LookupIds(a + b) == LookupIds(a) + LookupIds(b)
  {
    WithBroadcastsAppend(a, b);
    BroadcastIdsAppend(WithBroadcasts(a), WithBroadcasts(b));
  }

  lemma {:induction false} BroadcastIdsAppend(a: seq<Row>, b: seq<Row>)
    requires forall m :: m in a ==> m.messageBroadcastId.Some?
    requires forall m :: m in b ==> m.messageBroadcastId.Some?
    ensures BroadcastIds(a + b) == BroadcastIds(a) + BroadcastIds(b)
  {
    if a == [] {
      assert a + b == b;
    } else {
      assert (a + b)[1..] == a[1..] + b;
      BroadcastIdsAppend(a[1..], b);
    }
  }

  /** A single row contributes its link id exactly when it has a present, positive one. */
  lemma LookupIdsSingle(m: Row)
    ensures LookupIds([m]) == if HasBroadcast(m) then [m.messageBroadcastId.value] else []
  {
  }

  // ---------------------------------------------------------------------------
  // The second-pass lookups, degrading to "no broadcast" on failure
  // ---------------------------------------------------------------------------

  /** `get_broadcasting_messages_of_messages`: the batch result, or nothing when the lookup failed. */
  function GetBroadcastingMessagesOfMessages(lookup: BatchLookup, withBroadcasts: seq<Row>): (r: Option<seq<Row>>)
    requires forall m :: m in withBroadcasts ==> m.messageBroadcastId.Some?
    ensures r.None? <==> lookup(BroadcastIds(withBroadcasts)).Err?
    ensures r.Some? ==> r.value == lookup(BroadcastIds(withBroadcasts)).value
  {
    match lookup(BroadcastIds(withBroadcasts))
    case Ok(broadcastMessages) => Some(broadcastMessages)
    case Err(_) => None
  }

  /** `get_broadcasting_message_of_message`: the target row found, or nothing when the lookup failed. */
  function GetBroadcastingMessageOfMessage(lookup: SingleLookup, msg: Row): (r: Option<Row>)
    ensures lookup(msg.messageBroadcastId).Err? ==> r.None?
    ensures lookup(msg.messageBroadcastId).Ok? ==> r == lookup(msg.messageBroadcastId).value
  {
    match lookup(msg.messageBroadcastId)
    case Ok(broadcastMessage) => broadcastMessage
    case Err(_) => None
  }

  // ---------------------------------------------------------------------------
  // select_message and select_messages
  // ---------------------------------------------------------------------------

  /**
   * `select_message`: the primary query's failure is returned, an absent row
   * is `Ok(None)`, and a found row is merged with whatever the second lookup
   * found; a failed second lookup only loses the enrichment.
   */
  function SelectMessage(primary: Result<Option<Row>, DbError>, lookup: SingleLookup): (r: Result<Option<Enriched>, DbError>)
    ensures primary.Err? <==> r.Err?
    ensures primary.Err? ==> r.error == primary.error
    ensures primary == Ok(None) <==> r == Ok(None)
    ensures primary.Ok? && primary.value.Some? ==>
      var msg := primary.value.value;
      r.Ok? && r.value.Some? && PrimaryView(r.value.value) == ViewOf(msg) &&
      (lookup(msg.messageBroadcastId).Err? || lookup(msg.messageBroadcastId) == Ok(None) ==> Unenriched(r.value.value)) &&
      (lookup(msg.messageBroadcastId).Ok? ==> BroadcastView(r.value.value) == OptionalViewOf(lookup(msg.messageBroadcastId).value))
  {
    match primary
    case Err(e) => Err(e)
    case Ok(None) => Ok(None)
    case Ok(Some(msg)) =>
      Ok(Some(Merged(GetBroadcastingMessageOfMessage(lookup, msg), msg)))
  }

  /**
   * `select_messages`: the page query's failure is returned; otherwise the
   * rows with a link are resolved in one batched lookup and every page row is
   * merged with its match. The page keeps its length and order.
   */
  function SelectMessages(page: Result<seq<Row>, DbError>, lookup: BatchLookup): (r: Result<seq<Enriched>, DbError>)
    ensures page.Err? <==> r.Err?
    ensures page.Err? ==> r.error == page.error
    ensures page.Ok? ==> |r.value| == |page.value|
    ensures page.Ok? ==> forall i :: 0 <= i < |page.value| ==> PrimaryView(r.value[i]) == ViewOf(page.value[i])
    ensures page.Ok? && lookup(LookupIds(page.value)).Err? ==> forall i :: 0 <= i < |r.value| ==> Unenriched(r.value[i])
  {
    match page
    case Err(e) => Err(e)
    case Ok(followingMessages) =>
      var withBroadcasts := WithBroadcasts(followingMessages);
      var found := GetBroadcastingMessagesOfMessages(lookup, withBroadcasts);
      Ok(MergedPage(found, followingMessages))
  }

  /**
   * What each row of a fetched page carries: a row without a link id is never
   * enriched; an enriched row shows a batch row whose message id equals the
   * page row's link id, and then reports that link id as its
   * `messageBroadcastId`.
   */
  lemma SelectMessagesRow(page: Result<seq<Row>, DbError>, lookup: BatchLookup, i: int)
    requires page.Ok? && 0 <= i < |page.value|
    ensures var row, out := page.value[i], SelectMessages(page, lookup).value[i];
      (row.messageBroadcastId.None? ==> Unenriched(out)) &&
      (!Unenriched(out) ==>
         lookup(LookupIds(page.value)).Ok? &&
         out.messageBroadcastId == row.messageBroadcastId &&
         exists b :: b in lookup(LookupIds(page.value)).value &&
                     Some(b.id) == row.messageBroadcastId && BroadcastView(out) == Some(ViewOf(b)))
  {
  }

  /**
   * When the batch lookup succeeds and contains a row whose message id equals
   * a page row's link id, that page row is enriched with the first such row.
   */
  lemma SelectMessagesResolves(page: Result<seq<Row>, DbError>, lookup: BatchLookup, i: int, j: int)
    requires page.Ok? && 0 <= i < |page.value|
    requires lookup(LookupIds(page.value)).Ok?
    requires var found := lookup(LookupIds(page.value)).value;
      0 <= j < |found| && Some(found[j].id) == page.value[i].messageBroadcastId &&
      forall k :: 0 <= k < j ==> Some(found[k].id) != page.value[i].messageBroadcastId
    ensures SelectMessages(page, lookup).value[i] ==
            Merged(Some(lookup(LookupIds(page.value)).value[j]), page.value[i])
  {
    FindBroadcastIsFirst(lookup(LookupIds(page.value)).value, page.value[i].messageBroadcastId, j);
  }

  // ---------------------------------------------------------------------------
  // Decoding fetched rows into MessageWithProfileQueryResult
  // ---------------------------------------------------------------------------

  /** The column the derived `FromRow` reads the link id from: the struct field's own name. */
  const LinkField := "message_broadcast_id"
  /** The name the page query (line 155) and the batch query (line 206) give the link column. */
  const WrittenLinkAlias := "broadcast_msg_id"

  /**
   * `fetch_all` into `MessageWithProfileQueryResult` when the link column
   * arrives as `alias`: a query failure is returned; otherwise every row must
   * decode, and a row whose link column is not named `LinkField` fails with
   * `ColumnNotFound`. An empty result decodes whatever the alias.
   */
  function FetchRows(alias: string, fetched: Result<seq<Row>, DbError>): (r: Result<seq<Row>, DbError>)
    ensures fetched.Err? ==> r == fetched
    ensures fetched.Ok? && (fetched.value == [] || alias == LinkField) ==> r == fetched
    ensures fetched.Ok? && fetched.value != [] && alias != LinkField ==> r == Err(ColumnNotFound(LinkField))
  {
    match fetched
    case Err(e) => Err(e)
    case Ok(rows) =>
      if rows == [] || alias == LinkField then Ok(rows) else Err(ColumnNotFound(LinkField))
  }

  /**
   * `select_messages` with its two queries decoded: the page query's rows
   * under `pageAlias`, the batch query's rows under `batchAlias`. `fetchPage`
   * and `fetchBatch` are what the database returns before decoding.
   */
  function SelectMessagesDecoded(pageAlias: string, batchAlias: string,
                                 fetchPage: Result<seq<Row>, DbError>, fetchBatch: BatchLookup): Result<seq<Enriched>, DbError>
  {
    SelectMessages(FetchRows(pageAlias, fetchPage), (ids: seq<int>) => FetchRows(batchAlias, fetchBatch(ids)))
  }

  /**
   * As written, with the link column aliased `broadcast_msg_id`: any page
   * query that returns a row makes `select_messages` fail with
   * `ColumnNotFound`, so only an empty feed page is ever returned.
   */
  lemma SelectMessagesAsWrittenFails(fetchPage: Result<seq<Row>, DbError>, fetchBatch: BatchLookup)
    requires fetchPage.Ok? && fetchPage.value != []
    ensures SelectMessagesDecoded(WrittenLinkAlias, WrittenLinkAlias, fetchPage, fetchBatch) == Err(ColumnNotFound(LinkField))
  {
  }

  /**
   * As written for the batch query alone: even with the page decoded, a batch
   * lookup that returns rows fails to decode, so no page row is ever enriched.
   */
  lemma BatchLookupAsWrittenNeverEnriches(fetchPage: Result<seq<Row>, DbError>, fetchBatch: BatchLookup)
    requires fetchPage.Ok?
    requires fetchBatch(LookupIds(fetchPage.value)).Ok? && fetchBatch(LookupIds(fetchPage.value)).value != []
    ensures var r := SelectMessagesDecoded(LinkField, WrittenLinkAlias, fetchPage, fetchBatch);
      r.Ok? && forall i :: 0 <= i < |r.value| ==> Unenriched(r.value[i])
  {
  }

  /**
   * With the link column named as the struct field, decoding is transparent:
   * `select_messages` is exactly `SelectMessages` on the fetched rows, whose
   * properties are stated above.
   */
  lemma SelectMessagesIntended(fetchPage: Result<seq<Row>, DbError>, fetchBatch: BatchLookup)
    ensures SelectMessagesDecoded(LinkField, LinkField, fetchPage, fetchBatch) == SelectMessages(fetchPage, fetchBatch)
  {
    if fetchPage.Ok? {
      var ids := LookupIds(fetchPage.value);
      assert FetchRows(LinkField, fetchBatch(ids)) == fetchBatch(ids);
    }
  }
}
