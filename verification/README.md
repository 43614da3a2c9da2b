# Message repository of the axum-api social feed, modelled in Dafny

This project models the message repository of the `complete` service in
`complete/src/repository/message/message_repo.rs`. It has two halves.

- **Feed assembly (read side).** `select_message` fetches one message joined
  with its author's profile. `select_messages` fetches a page of the viewer's
  feed. Both then resolve broadcast targets (quote-reposts) in a second
  lookup and merge them into flattened `MessageWithFollowingAndBroadcastQueryResult`
  rows, using `append_broadcast_msg_to_msg` and `append_broadcast_msgs_to_msgs`.
- **Write pipeline.** `insert_message` inserts a message and, optionally, a
  `message_broadcast` link. `insert_response_message` inserts a message and a
  `message_response` link. Each runs both inserts in one transaction.

Files:

- `wrappers.dfy` (module `Wrappers`): `Option` and `Result`.
- `message_models.dfy` (module `MessageModels`): the row shapes of
  `message_models.rs`. `MessageWithProfile` is `MessageWithProfileQueryResult`,
  and `MessageWithBroadcast` is `MessageWithFollowingAndBroadcastQueryResult`.
  The module also defines the views used to state the merge properties:
  `ViewOf`, `PrimaryView`, `BroadcastView` and `Unenriched`.
- `feed.dfy` (module `MessageRepo`): the read side. SQL results are inputs.
  The primary query's outcome is a `Result` value. Each second-pass query is a
  function parameter that maps what is bound to the query to what it returns,
  so the model can state which ids are sent. `append_broadcast_msg_to_msg`
  and `append_broadcast_msgs_to_msgs` are methods, as in the source: a mutable
  row whose fields are overwritten, and a list built by pushing in a loop.
  Each is proved against a specification function (`Merged`, `MergedPage`).
  The filter, the id extraction and the `find` are functions. `FetchRows`
  models decoding fetched rows by column name, which the findings below use.
- `writer.dfy` (module `MessageWriter`): the write side.
  - A class `MessageStore` holds the `message`, `message_broadcast` and
    `message_response` tables, their serial counters, and the savepoint of the
    open transaction.
  - Begin takes the savepoint, commit drops it, and rollback restores it.
  - Each insert statement takes a `Fault` parameter that decides whether the
    database accepts it.
  - Each writer runs its statements in a `...Steps` method and then proves the
    link invariant. The writers are proved against the pure effect functions
    `InsertMessageEffect` and `InsertResponseMessageEffect`. All-or-nothing and
    invariant preservation are proved about those functions.

How the code behaves, in points that a reader might not expect:

- **Batch lookup key.** The batch lookup of `select_messages` sends each page
  row's link id: the id of the `message_broadcast` row joined on the message as
  its main message (line 159, unwrapped at lines 199-202). The batch query
  matches those ids against `message.id` (line 210), and
  `append_broadcast_msgs_to_msgs` compares them with each candidate's message
  `id` (line 260). The code does not translate between the two ids, and the
  model does not either. `SelectMessagesRow` states the consequence: an
  enriched feed row reports the page row's link id as its
  `message_broadcast_id`. The single lookup of `select_message` is different:
  it joins on `broadcasting_msg_id` and filters on the link id (lines 233-234).
- **Failed batch lookup.** A failed batch lookup is logged, and the page is
  returned with no broadcast data. There is no separate result for this
  degraded case (lines 216-220, 240-244). `SelectMessage` and
  `SelectMessages` model that.
- **Sentinel ids.** A link id of zero or less counts as "no broadcast" in the
  filter (line 176) and nowhere else.
- **Link column name.** The page query (line 155) and the batch query (line
  206) name the link column `broadcast_msg_id`. The derived `FromRow` of
  `MessageWithProfileQueryResult` reads the field name `message_broadcast_id`
  (message_models.rs:30). The queries of `select_message` use that name (lines
  116 and 230). See "## Findings". The rest of the model uses the rows as they
  decode under the field's own name.

## Model

| member | source | states |
|---|---|---|
| `MessageRepo.Merged` | complete/src/repository/message/message_repo.rs:276-314 | the merge keeps the primary row's nine message and author fields unchanged. Without a target, all nine broadcast fields are absent, even when the primary row had a link id. With target `b`, the broadcast fields present exactly `b`'s fields: id, updated_at, likes, user_id, user_name and full_name wrapped in `Some`, and body, image and avatar as they are |
| `MessageRepo.AppendBroadcastMsgToMsg` | complete/src/repository/message/message_repo.rs:276-314 | starting from a row without broadcast data and overwriting the nine fields one by one yields exactly the merge |
| `MessageRepo.FindBroadcast` | complete/src/repository/message/message_repo.rs:258-260 | the `find` yields a candidate from the list whose id wrapped in `Some` equals the key. It yields nothing exactly when no candidate has that id, so always nothing for an absent key |
| `MessageRepo.FindBroadcastIsFirst` | complete/src/repository/message/message_repo.rs:258-260 | when several candidates have the key, the earliest one is chosen |
| `MessageRepo.MatchFor` | complete/src/repository/message/message_repo.rs:255-263 | a row's match is absent when the batch lookup failed or the row has no link id. Otherwise it is a batch row whose message id equals the row's link id, and one is found whenever such a batch row exists |
| `MessageRepo.MergedPage` | complete/src/repository/message/message_repo.rs:252-273 | the merged page has one row per input row, in input order. Row i is input i merged with its own match |
| `MessageRepo.AppendBroadcastMsgsToMsgs` | complete/src/repository/message/message_repo.rs:248-274 | pushing the merge of each page row onto an empty list, in order, yields exactly the merged page |
| `MessageRepo.WithBroadcasts` | complete/src/repository/message/message_repo.rs:173-178 | the filter keeps exactly the rows whose link id is present and positive, and keeps no other row |
| `MessageRepo.WithBroadcastsAppend` | complete/src/repository/message/message_repo.rs:173-178 | filtering a concatenation filters each part and keeps the parts in order, so the filter preserves page order |
| `MessageRepo.BroadcastIds` | complete/src/repository/message/message_repo.rs:199-202 | the id extraction unwraps each row's link id, one id per row and in row order. It requires every row to carry a link id, because the unwrap panics otherwise |
| `MessageRepo.BroadcastIdsAppend` | complete/src/repository/message/message_repo.rs:199-202 | the ids of a concatenation are the ids of each part, in order |
| `MessageRepo.LookupIdsAreLinkIds` | complete/src/repository/message/message_repo.rs:173-202 | every id bound to the batch lookup is positive. An id is sent exactly when some page row has it as a present link id |
| `MessageRepo.LookupIdsAppend` | complete/src/repository/message/message_repo.rs:173-202 | the ids sent for a concatenated page are the ids of each part, in page order |
| `MessageRepo.LookupIdsSingle` | complete/src/repository/message/message_repo.rs:173-202 | a single row contributes its link id exactly when that id is present and positive |
| `MessageRepo.GetBroadcastingMessagesOfMessages` | complete/src/repository/message/message_repo.rs:195-222 | a failed batch lookup becomes `None`, not an error. A successful one passes its rows through |
| `MessageRepo.GetBroadcastingMessageOfMessage` | complete/src/repository/message/message_repo.rs:224-246 | the single lookup is bound to the row's link id as it is, even an absent one. A failure becomes `None`, and a success passes its row or absence through |
| `MessageRepo.SelectMessage` | complete/src/repository/message/message_repo.rs:109-145 | a primary-query error is returned as it is, and an absent row is `Ok(None)`. A found row always gives `Ok(Some(..))` with the row's own fields. A failed or empty broadcast lookup leaves it without broadcast data. A found target is presented in its broadcast fields |
| `MessageRepo.SelectMessages` | complete/src/repository/message/message_repo.rs:147-192 | a page-query error is returned as it is. Otherwise the result is `Ok` with one row per page row, in page order, each with its own fields. A failed batch lookup leaves every row without broadcast data |
| `MessageRepo.SelectMessagesRow` | complete/src/repository/message/message_repo.rs:172-189 | a page row without a link id is never enriched. An enriched row shows a batch row whose message id equals the page row's link id, and reports that link id as its `message_broadcast_id` |
| `MessageRepo.SelectMessagesResolves` | complete/src/repository/message/message_repo.rs:254-273 | when the batch lookup succeeds and holds rows with the page row's link id as message id, the page row is merged with the first of them |
| `MessageRepo.FetchRows` | complete/src/repository/message/message_repo.rs:155-171 | fetching into `MessageWithProfileQueryResult` returns a query failure as it is. An empty result always decodes. Rows whose link column is named as the field decode unchanged. A non-empty result under any other name fails with `ColumnNotFound("message_broadcast_id")` |
| `MessageRepo.SelectMessagesAsWrittenFails` | complete/src/repository/message/message_repo.rs:155 | with the link column named as the page query names it, any page query that returns a row makes `select_messages` return `ColumnNotFound` |
| `MessageRepo.BatchLookupAsWrittenNeverEnriches` | complete/src/repository/message/message_repo.rs:206 | with the batch query's column name, a batch lookup that returns rows fails to decode, so no page row is enriched even when the page decodes |
| `MessageRepo.SelectMessagesIntended` | complete/src/repository/message/message_repo.rs:147-222 | with the link column named as the field, decoding changes nothing: `select_messages` is exactly `SelectMessages` on the fetched rows |
| `MessageWriter.InsertMessageAllOrNothing` | complete/src/repository/message/message_repo.rs:29-65 | `insert_message` fails exactly when the message insert fails, or when a target is given and the link insert fails. The error returned is that statement's error, and the tables are unchanged. On success it adds the message row `(new id, user_id, body)`, adds the link `(id, new id, target)` exactly when a target is given, leaves `message_response` alone and returns the new id |
| `MessageWriter.InsertResponseMessageAllOrNothing` | complete/src/repository/message/message_repo.rs:67-107 | `insert_response_message` fails exactly when one of its two inserts fails. The error returned is that statement's error, and the tables are unchanged. On success it adds the message row and the link `(id, original_msg_id, new id)`, leaves `message_broadcast` alone and returns the new id |
| `MessageWriter.InsertMessageKeepsWellFormed` | complete/src/repository/message/message_repo.rs:29-65 | `insert_message` keeps ids serial (positive, increasing, below the counters), leaves no link row without its own message, and returns a message id no earlier message has |
| `MessageWriter.InsertResponseMessageKeepsWellFormed` | complete/src/repository/message/message_repo.rs:67-107 | `insert_response_message` keeps ids serial, leaves no link row without its own message, and returns a message id no earlier message has |
| `MessageWriter.MessageStore.Begin` | complete/src/repository/message/message_repo.rs:30 | opening the transaction records the current tables as the savepoint and leaves the serial counters alone |
| `MessageWriter.MessageStore.Commit` | complete/src/repository/message/message_repo.rs:62 | commit closes the transaction and keeps the tables and the serial counters |
| `MessageWriter.MessageStore.Rollback` | complete/src/repository/message/message_repo.rs:57 | rollback puts back exactly the tables of the savepoint and closes the transaction. The serial counters keep their values |
| `MessageWriter.MessageStore.InsertMessageRow` | complete/src/repository/message/message_repo.rs:32-38 | the message insert either appends `(next id, user_id, Some(body))`, returns the id and advances the message counter by one, or returns its error and changes nothing. The other counters are untouched |
| `MessageWriter.MessageStore.InsertBroadcastRow` | complete/src/repository/message/message_repo.rs:49-54 | the link insert either appends `(next id, main_msg_id, broadcasting_msg_id)`, returns the id and advances the link counter by one, or returns its error and changes nothing. The other counters are untouched |
| `MessageWriter.MessageStore.InsertResponseRow` | complete/src/repository/message/message_repo.rs:83-89 | the response-link insert either appends `(next id, original_msg_id, responding_msg_id)`, returns the id and advances the response counter by one, or returns its error and changes nothing. The other counters are untouched |
| `MessageWriter.MessageStore.InsertMessage` | complete/src/repository/message/message_repo.rs:29-65 | `insert_message` returns what `InsertMessageEffect` returns and leaves the tables it describes. The store stays valid and no transaction is left open. The message counter advances exactly when the message insert succeeds, and the link counter exactly when the link insert runs and succeeds. The response counter is untouched |
| `MessageWriter.MessageStore.InsertMessageSteps` | complete/src/repository/message/message_repo.rs:30-64 | stepping through begin, the message insert, the link insert when a target is given, and commit or rollback, gives the same result, tables and counters as `InsertMessage` states, keeping the ids serial |
| `MessageWriter.MessageStore.InsertResponseMessage` | complete/src/repository/message/message_repo.rs:67-107 | `insert_response_message` returns what `InsertResponseMessageEffect` returns and leaves the tables it describes. The store stays valid and no transaction is left open. The message counter advances exactly when the message insert succeeds, and the response counter exactly when both inserts succeed. The link counter is untouched |
| `MessageWriter.MessageStore.InsertResponseMessageSteps` | complete/src/repository/message/message_repo.rs:68-106 | stepping through begin, the two inserts and commit or rollback gives the same result, tables and counters as `InsertResponseMessage` states, keeping the ids serial |

## Findings

| source | as written | input that shows it | evidently intended | confidence | as-written member | corrected member |
|---|---|---|---|---|---|---|
| complete/src/repository/message/message_repo.rs:155 | the page query names the link column `broadcast_msg_id`, but the derived `FromRow` reads `message_broadcast_id` (complete/src/repository/message/message_models.rs:30), so every fetched row fails to decode | any feed page with at least one row: `select_messages` returns `Err(ColumnNotFound("message_broadcast_id"))` | `mb.id as message_broadcast_id`, as in `select_message` (line 116); the page decodes and is merged | not executed; medium: follows from the derived `FromRow` reading columns by field name | `MessageRepo.SelectMessagesAsWrittenFails` | `MessageRepo.SelectMessagesIntended` |
| complete/src/repository/message/message_repo.rs:206 | the batch query uses the same `broadcast_msg_id` name, so a batch lookup that finds rows fails to decode and degrades to `None` | a decoded page whose batch lookup returns at least one row: every row comes back without broadcast data | the batch rows decode, and page rows are merged with their matches | not executed; medium: same reason | `MessageRepo.BatchLookupAsWrittenNeverEnriches` | `MessageRepo.SelectMessagesIntended` |

## Left out

- SQL text and query semantics are not modelled: the joins, the `follow` filter, `ANY($1)`, binding a NULL id, and `order by m.updated_at desc limit $3`. Query results are inputs, so feed ordering, the cursor bound and the page-size bound (enforced by Postgres) are not stated.
- `select_messages` parameters `user_id`, `last_updated_at` and `page_size` are not modelled: only the SQL uses them.
- The `msg_group_type` column that the feed and batch queries select is not modelled: the row type has no such field.
- `pool.begin().await.unwrap()` is taken to succeed. The model does not capture its panic.
- Commit is taken to succeed, because the source discards its result.
- Async execution is treated as sequential. Concurrent writers are not modelled.
- In `insert_message`, a failed first insert returns without calling rollback. The model rolls back there: dropping an open sqlx transaction rolls it back.
- Constraint checks by the database, such as foreign keys on `user_id` and the link columns, are not modelled. They are folded into the `Fault` parameter of each statement.
- A failed insert does not advance its serial counter in the model. Postgres may consume a sequence value on a failed insert; only the ids would differ.
- `i64` ids and `i32` likes are unbounded integers. No code does arithmetic on them, and serial-counter overflow is not modelled.
- `DateTime<Utc>` is an `int`, `String` is `seq<char>`, and byte blobs are `seq<bv8>`. Serialization is not modelled.
- Decoding is modelled only for the name of the link column (`FetchRows`). Every other column is taken to decode, and type mismatches are not modelled.
- Logging (`error!`) and the error detail of `sqlx::Error` are not modelled.
- The properties that link a write with a later read (create, then fetch by id) are not modelled, because they depend on the SQL queries.
- The HTTP controllers and routes, `EntityId::into_response`, the profile and follow repositories, server bootstrap and connection-pool configuration are not part of this model.
