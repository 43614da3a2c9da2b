/**
 * The write pipeline of the message repository: `insert_message` and
 * `insert_response_message` (complete/src/repository/message/message_repo.rs,
 * lines 29-107), each two inserts inside one transaction.
 *
 * The store holds the `message`, `message_broadcast` and `message_response`
 * tables and their serial id counters. A transaction is a savepoint of the
 * tables: begin takes it, commit drops it, rollback restores it. The serial
 * counters are not part of the savepoint, as in Postgres, where a sequence
 * does not go back on rollback. Whether a statement succeeds is decided by a
 * `Fault` parameter, which stands for everything the database may refuse.
 */
module MessageWriter {
  import opened Wrappers
  import opened MessageModels

  /** `EntityId`: the generated id a successful insert returns. */
  datatype EntityId = EntityId(id: int)

  datatype MessageRow = MessageRow(id: int, userId: int, body: Option<string>)
  datatype BroadcastRow = BroadcastRow(id: int, mainMsgId: int, broadcastingMsgId: int)
  datatype ResponseRow = ResponseRow(id: int, originalMsgId: int, respondingMsgId: int)

  /** The contents of the three tables at one moment. */
  datatype Tables = Tables(messages: seq<MessageRow>, broadcasts: seq<BroadcastRow>, responses: seq<ResponseRow>)

  /** The outcome the database gives one statement. */
  datatype Fault = Pass | Fail(error: DbError)

  /** The ids of the message rows. */
  function MessageIds(messages: seq<MessageRow>): set<int>
    decreases |messages|
  {
    if messages == [] then {}
    else MessageIds(messages[..|messages| - 1]) + {messages[|messages| - 1].id}
  }

  function MessageKey(m: MessageRow): int { m.id }
  function BroadcastKey(l: BroadcastRow): int { l.id }
  function ResponseKey(l: ResponseRow): int { l.id }

  /**
   * Ids handed out by a serial counter whose next value is `next`: read in
   * insertion order, they are positive, strictly increasing and below `next`.
   */
  ghost predicate Serial<R>(rows: seq<R>, key: R -> int, next: int)
    decreases |rows|
  {
    if rows == [] then 0 < next
    else key(rows[|rows| - 1]) < next && Serial(rows[..|rows| - 1], key, key(rows[|rows| - 1]))
  }

  lemma SerialAppend<R>(rows: seq<R>, key: R -> int, next: int, row: R)
    requires Serial(rows, key, next) && key(row) == next
    ensures Serial(rows + [row], key, next + 1)
  {
  }

  lemma SerialGrow<R>(rows: seq<R>, key: R -> int, next: int, next': int)
    requires Serial(rows, key, next) && next <= next'
    ensures Serial(rows, key, next')
  {
  }

  /** Every id already handed out is positive and below the counter. */
  lemma {:induction false} SerialBelow<R>(rows: seq<R>, key: R -> int, next: int)
    requires Serial(rows, key, next)
    ensures forall i :: 0 <= i < |rows| ==> 0 < key(rows[i]) < next
  {
    if rows != [] {
      var last := |rows| - 1;
      SerialBelow(rows[..last], key, key(rows[last]));
      forall i | 0 <= i < |rows|
        ensures 0 < key(rows[i]) < next
      {
        if i < last {
          assert rows[..last][i] == rows[i];
        }
      }
    }
  }

  /** The ids the three serial counters handed out (`SERIAL` columns). */
  ghost predicate SerialIds(t: Tables, nextMessageId: int, nextBroadcastId: int, nextResponseId: int) {
    Serial(t.messages, MessageKey, nextMessageId) &&
    Serial(t.broadcasts, BroadcastKey, nextBroadcastId) &&
    Serial(t.responses, ResponseKey, nextResponseId)
  }

  /**
   * No link row without its own message: every broadcast link's main
   * (broadcasting) message and every response link's responding message
   * exists.
   */
  ghost predicate LinksOwned(t: Tables) {
    (forall l :: l in t.broadcasts ==> l.mainMsgId in MessageIds(t.messages)) &&
    (forall l :: l in t.responses ==> l.respondingMsgId in MessageIds(t.messages))
  }

  /** Table contents the write pipeline can produce. */
  ghost predicate WellFormed(t: Tables, nextMessageId: int, nextBroadcastId: int, nextResponseId: int) {
    SerialIds(t, nextMessageId, nextBroadcastId, nextResponseId) && LinksOwned(t)
  }

  /** What a writer returns, and the tables it leaves behind. */
  datatype Written<T> = Written(result: Result<T, DbError>, after: Tables)

  /**
   * The effect of `insert_message` on tables `t`, where `messageId` and
   * `broadcastId` are the ids the serial counters hand out next: the message
   * row, then the broadcast link when a target is given; a failing statement
   * leaves `t` as it was and its error is the result.
   */
  function InsertMessageEffect(t: Tables, messageId: int, broadcastId: int, userId: int, body: string,
                               broadcastingMsgId: Option<int>, messageFault: Fault, broadcastFault: Fault): Written<EntityId>
  {
    if messageFault.Fail? then Written(Err(messageFault.error), t)
    else
      var withMessage := t.(messages := t.messages + [MessageRow(messageId, userId, Some(body))]);
      match broadcastingMsgId
      case None => Written(Ok(EntityId(messageId)), withMessage)
      case Some(bmId) =>
        if broadcastFault.Fail? then Written(Err(broadcastFault.error), t)
        else Written(Ok(EntityId(messageId)),
                     withMessage.(broadcasts := t.broadcasts + [BroadcastRow(broadcastId, messageId, bmId)]))
  }

  /**
   * The effect of `insert_response_message` on tables `t`: the message row,
   * then the response link from `originalMsgId` to it; a failing statement
   * leaves `t` as it was and its error is the result.
   */
  function InsertResponseMessageEffect(t: Tables, messageId: int, responseId: int, userId: int, body: string,
                                       originalMsgId: int, messageFault: Fault, responseFault: Fault): Written<int>
  {
    if messageFault.Fail? then Written(Err(messageFault.error), t)
    else if responseFault.Fail? then Written(Err(responseFault.error), t)
    else Written(Ok(messageId),
                 t.(messages := t.messages + [MessageRow(messageId, userId, Some(body))],
                    responses := t.responses + [ResponseRow(responseId, originalMsgId, messageId)]))
  }

  /**
   * `insert_message` is all or nothing: it fails exactly when one of its
   * statements fails, and then the tables are unchanged; on success it adds
   * the message row, and the link row exactly when a target is given, and
   * touches nothing else.
   */
  lemma InsertMessageAllOrNothing(t: Tables, messageId: int, broadcastId: int, userId: int, body: string,
                                  broadcastingMsgId: Option<int>, messageFault: Fault, broadcastFault: Fault)
    ensures var w := InsertMessageEffect(t, messageId, broadcastId, userId, body, broadcastingMsgId, messageFault, broadcastFault);
      (w.result.Err? <==> messageFault.Fail? || (broadcastingMsgId.Some? && broadcastFault.Fail?)) &&
      (w.result.Err? ==> w.after == t) &&
      (messageFault.Fail? ==> w.result == Err(messageFault.error)) &&
      (messageFault.Pass? && broadcastingMsgId.Some? && broadcastFault.Fail? ==> w.result == Err(broadcastFault.error)) &&
      (w.result.Ok? ==>
         w.result.value.id == messageId &&
         w.after.messages == t.messages + [MessageRow(messageId, userId, Some(body))] &&
         w.after.responses == t.responses &&
         w.after.broadcasts == t.broadcasts +
           (if broadcastingMsgId.Some? then [BroadcastRow(broadcastId, messageId, broadcastingMsgId.value)] else []))
  {
  }

  /**
   * `insert_response_message` is all or nothing: it fails exactly when one of
   * its statements fails, and then the tables are unchanged; on success it
   * adds the message row and the response link to it, and nothing else.
   */
  lemma InsertResponseMessageAllOrNothing(t: Tables, messageId: int, responseId: int, userId: int, body: string,
                                          originalMsgId: int, messageFault: Fault, responseFault: Fault)
    ensures var w := InsertResponseMessageEffect(t, messageId, responseId, userId, body, originalMsgId, messageFault, responseFault);
      (w.result.Err? <==> messageFault.Fail? || responseFault.Fail?) &&
      (w.result.Err? ==> w.after == t) &&
      (messageFault.Fail? ==> w.result == Err(messageFault.error)) &&
      (messageFault.Pass? && responseFault.Fail? ==> w.result == Err(responseFault.error)) &&
      (w.result.Ok? ==>
         w.result.value == messageId &&
         w.after.messages == t.messages + [MessageRow(messageId, userId, Some(body))] &&
         w.after.broadcasts == t.broadcasts &&
         w.after.responses == t.responses + [ResponseRow(responseId, originalMsgId, messageId)])
  {
  }

  /**
   * With ids taken from the serial counters, `insert_message` keeps the
   * tables well formed (counters advanced past the ids it may have used), and
   * a new message id is one no existing message has.
   */
  lemma InsertMessageKeepsWellFormed(t: Tables, nm: int, nb: int, nr: int, userId: int, body: string,
                                     broadcastingMsgId: Option<int>, messageFault: Fault, broadcastFault: Fault)
    requires WellFormed(t, nm, nb, nr)
    ensures var w := InsertMessageEffect(t, nm, nb, userId, body, broadcastingMsgId, messageFault, broadcastFault);
      WellFormed(w.after, nm + 1, nb + 1, nr) &&
      (w.result.Ok? ==> w.result.value.id !in MessageIds(t.messages) && w.result.value.id in MessageIds(w.after.messages))
  {
    var row := MessageRow(nm, userId, Some(body));
    var t1 := t.(messages := t.messages + [row]);
    FreshMessage(t.messages, row, nm);
    SerialAppend(t.messages, MessageKey, nm, row);
    SerialGrow(t.messages, MessageKey, nm, nm + 1);
    SerialGrow(t.broadcasts, BroadcastKey, nb, nb + 1);
    if broadcastingMsgId.Some? {
      SerialAppend(t.broadcasts, BroadcastKey, nb, BroadcastRow(nb, nm, broadcastingMsgId.value));
    }
  }

  /**
   * With ids taken from the serial counters, `insert_response_message` keeps
   * the tables well formed (counters advanced past the ids it may have used),
   * and a new message id is one no existing message has.
   */
  lemma InsertResponseMessageKeepsWellFormed(t: Tables, nm: int, nb: int, nr: int, userId: int, body: string,
                                             originalMsgId: int, messageFault: Fault, responseFault: Fault)
    requires WellFormed(t, nm, nb, nr)
    ensures var w := InsertResponseMessageEffect(t, nm, nr, userId, body, originalMsgId, messageFault, responseFault);
      WellFormed(w.after, nm + 1, nb, nr + 1) &&
      (w.result.Ok? ==> w.result.value !in MessageIds(t.messages) && w.result.value in MessageIds(w.after.messages))
  {
    var row := MessageRow(nm, userId, Some(body));
    FreshMessage(t.messages, row, nm);
    SerialAppend(t.messages, MessageKey, nm, row);
    SerialGrow(t.messages, MessageKey, nm, nm + 1);
    SerialGrow(t.responses, ResponseKey, nr, nr + 1);
    SerialAppend(t.responses, ResponseKey, nr, ResponseRow(nr, originalMsgId, nm));
  }

  /** Every message id already handed out is below the counter. */
  lemma {:induction false} MessageIdsBelow(messages: seq<MessageRow>, nm: int)
    requires Serial(messages, MessageKey, nm)
    ensures forall x :: x in MessageIds(messages) ==> x < nm
  {
    if messages != [] {
      MessageIdsBelow(messages[..|messages| - 1], messages[|messages| - 1].id);
    }
  }

  /** A message row with the counter's next id is new, and appending it adds exactly its id. */
  lemma FreshMessage(messages: seq<MessageRow>, row: MessageRow, nm: int)
    requires Serial(messages, MessageKey, nm) && row.id == nm
    ensures row.id !in MessageIds(messages)
    ensures MessageIds(messages + [row]) == MessageIds(messages) + {row.id}
  {
    MessageIdsBelow(messages, nm);
    assert (messages + [row])[..|messages|] == messages;
  }

  class MessageStore {
    var messages: seq<MessageRow>
    var broadcasts: seq<BroadcastRow>
    var responses: seq<ResponseRow>
    var nextMessageId: int
    var nextBroadcastId: int
    var nextResponseId: int
    /** The tables as they were when the open transaction began; `None` outside a transaction. */
    var savepoint: Option<Tables>

    function Current(): Tables
      reads this
    {
      Tables(messages, broadcasts, responses)
    }

    predicate InTransaction()
      reads this
    {
      savepoint.Some?
    }

    /**
     * The ids in the tables, and in the savepoint of an open transaction, came
     * from the serial counters. This much holds after every single statement.
     */
    ghost predicate IdsValid()
      reads this
    {
      SerialIds(Current(), nextMessageId, nextBroadcastId, nextResponseId) &&
      (savepoint.Some? ==> SerialIds(savepoint.value, nextMessageId, nextBroadcastId, nextResponseId))
    }

    /** Between writers the tables are also free of link rows without their own message. */
    ghost predicate Valid()
      reads this
    {
      IdsValid() && LinksOwned(Current())
    }

    constructor ()
      ensures Valid() && !InTransaction()
      ensures Current() == Tables([], [], [])
    {
      messages, broadcasts, responses := [], [], [];
      nextMessageId, nextBroadcastId, nextResponseId := 1, 1, 1;
      savepoint := None;
    }

    /** `pool.begin()`, which the source unwraps: it is taken to succeed. */
    method Begin()
      requires IdsValid() && !InTransaction()
      modifies this`savepoint
      ensures IdsValid() && savepoint == Some(Current())
      ensures nextMessageId == old(nextMessageId) && nextBroadcastId == old(nextBroadcastId) && nextResponseId == old(nextResponseId)
    {
      savepoint := Some(Current());
    }

    /** `tx.commit()`, whose result the source discards: it is taken to succeed. */
    method Commit()
      requires IdsValid() && InTransaction()
      modifies this`savepoint
      ensures IdsValid() && !InTransaction()
      ensures nextMessageId == old(nextMessageId) && nextBroadcastId == old(nextBroadcastId) && nextResponseId == old(nextResponseId)
    {
      savepoint := None;
    }

    /** `tx.rollback()`: the tables return to the savepoint; the serial counters keep their values. */
    method Rollback()
      requires IdsValid() && InTransaction()
      modifies this`messages, this`broadcasts, this`responses, this`savepoint
      ensures IdsValid() && !InTransaction()
      ensures Current() == old(savepoint.value)
      ensures nextMessageId == old(nextMessageId) && nextBroadcastId == old(nextBroadcastId) && nextResponseId == old(nextResponseId)
    {
      messages, broadcasts, responses := savepoint.value.messages, savepoint.value.broadcasts, savepoint.value.responses;
      savepoint := None;
    }

    /** `insert into message (user_id, body) values ($1, $2) returning id`. */
    method InsertMessageRow(userId: int, body: string, fault: Fault) returns (r: Result<int, DbError>)
      requires IdsValid() && InTransaction()
      modifies this`messages, this`nextMessageId
      ensures IdsValid()
      ensures fault.Fail? ==> r == Err(fault.error) && messages == old(messages) && nextMessageId == old(nextMessageId)
      ensures fault.Pass? ==> r == Ok(old(nextMessageId)) && messages == old(messages) + [MessageRow(r.value, userId, Some(body))]
      ensures fault.Pass? ==> nextMessageId == old(nextMessageId) + 1
      ensures nextBroadcastId == old(nextBroadcastId) && nextResponseId == old(nextResponseId)
    {
      if fault.Fail? {
        return Err(fault.error);
      }
      var row := MessageRow(nextMessageId, userId, Some(body));
      SerialAppend(messages, MessageKey, nextMessageId, row);
      SerialGrow(savepoint.value.messages, MessageKey, nextMessageId, nextMessageId + 1);
      messages := messages + [row];
      nextMessageId := nextMessageId + 1;
      r := Ok(row.id);
    }

    /** `insert into message_broadcast (main_msg_id, broadcasting_msg_id) values ($1, $2) returning id`. */
    method InsertBroadcastRow(mainMsgId: int, broadcastingMsgId: int, fault: Fault) returns (r: Result<int, DbError>)
      requires IdsValid() && InTransaction()
      modifies this`broadcasts, this`nextBroadcastId
      ensures IdsValid()
      ensures fault.Fail? ==> r == Err(fault.error) && broadcasts == old(broadcasts) && nextBroadcastId == old(nextBroadcastId)
      ensures fault.Pass? ==>
        r == Ok(old(nextBroadcastId)) && broadcasts == old(broadcasts) + [BroadcastRow(r.value, mainMsgId, broadcastingMsgId)]
      ensures fault.Pass? ==> nextBroadcastId == old(nextBroadcastId) + 1
      ensures nextMessageId == old(nextMessageId) && nextResponseId == old(nextResponseId)
    {
      if fault.Fail? {
        return Err(fault.error);
      }
      var row := BroadcastRow(nextBroadcastId, mainMsgId, broadcastingMsgId);
      SerialAppend(broadcasts, BroadcastKey, nextBroadcastId, row);
      SerialGrow(savepoint.value.broadcasts, BroadcastKey, nextBroadcastId, nextBroadcastId + 1);
      broadcasts := broadcasts + [row];
      nextBroadcastId := nextBroadcastId + 1;
      r := Ok(row.id);
    }

    /** `insert into message_response (original_msg_id, responding_msg_id) values ($1, $2) returning id`. */
    method InsertResponseRow(originalMsgId: int, respondingMsgId: int, fault: Fault) returns (r: Result<int, DbError>)
      requires IdsValid() && InTransaction()
      modifies this`responses, this`nextResponseId
      ensures IdsValid()
      ensures fault.Fail? ==> r == Err(fault.error) && responses == old(responses) && nextResponseId == old(nextResponseId)
      ensures fault.Pass? ==>
        r == Ok(old(nextResponseId)) && responses == old(responses) + [ResponseRow(r.value, originalMsgId, respondingMsgId)]
      ensures fault.Pass? ==> nextResponseId == old(nextResponseId) + 1
      ensures nextMessageId == old(nextMessageId) && nextBroadcastId == old(nextBroadcastId)
    {
      if fault.Fail? {
        return Err(fault.error);
      }
      var row := ResponseRow(nextResponseId, originalMsgId, respondingMsgId);
      SerialAppend(responses, ResponseKey, nextResponseId, row);
      SerialGrow(savepoint.value.responses, ResponseKey, nextResponseId, nextResponseId + 1);
      responses := responses + [row];
      nextResponseId := nextResponseId + 1;
      r := Ok(row.id);
    }

    /**
     * `insert_message`: insert the message, then the broadcast link when a
     * target is given, all in one transaction (see InsertMessageEffect).
     * The statements run in InsertMessageSteps; the link invariant follows
     * from InsertMessageKeepsWellFormed.
     */
    method InsertMessage(userId: int, body: string, broadcastingMsgId: Option<int>,
                         messageFault: Fault, broadcastFault: Fault) returns (r: Result<EntityId, DbError>)
      requires Valid() && !InTransaction()
      modifies this
      ensures Valid() && !InTransaction()
      ensures Written(r, Current()) ==
              InsertMessageEffect(old(Current()), old(nextMessageId), old(nextBroadcastId),
                                  userId, body, broadcastingMsgId, messageFault, broadcastFault)
      // Each serial counter advances once per row its table gains; the response counter is untouched.
      ensures nextMessageId == old(nextMessageId) + (if messageFault.Pass? then 1 else 0)
      ensures nextBroadcastId ==
              old(nextBroadcastId) + (if messageFault.Pass? && broadcastingMsgId.Some? && broadcastFault.Pass? then 1 else 0)
      ensures nextResponseId == old(nextResponseId)
    {
      ghost var before, nm, nb, nr := Current(), nextMessageId, nextBroadcastId, nextResponseId;
      r := InsertMessageSteps(userId, body, broadcastingMsgId, messageFault, broadcastFault);
      InsertMessageKeepsWellFormed(before, nm, nb, nr, userId, body, broadcastingMsgId, messageFault, broadcastFault);
    }

    /** The statements of `insert_message` between `begin` and `commit` or rollback. */
    method InsertMessageSteps(userId: int, body: string, broadcastingMsgId: Option<int>,
                              messageFault: Fault, broadcastFault: Fault) returns (r: Result<EntityId, DbError>)
      requires IdsValid() && !InTransaction()
      modifies this
      ensures IdsValid() && !InTransaction()
      ensures Written(r, Current()) ==
              InsertMessageEffect(old(Current()), old(nextMessageId), old(nextBroadcastId),
                                  userId, body, broadcastingMsgId, messageFault, broadcastFault)
      ensures nextMessageId == old(nextMessageId) + (if messageFault.Pass? then 1 else 0)
      ensures nextBroadcastId ==
              old(nextBroadcastId) + (if messageFault.Pass? && broadcastingMsgId.Some? && broadcastFault.Pass? then 1 else 0)
      ensures nextResponseId == old(nextResponseId)
    {
      ghost var before, nm, nb := Current(), nextMessageId, nextBroadcastId;
      ghost var effect := InsertMessageEffect(before, nm, nb, userId, body, broadcastingMsgId, messageFault, broadcastFault);
      Begin();
      var insertMsgResult := InsertMessageRow(userId, body, messageFault);
      if insertMsgResult.Err? {
        // The source returns at once; dropping the open transaction rolls it back.
        Rollback();
        r := Err(insertMsgResult.error);
        assert Current() == before;
      } else {
        var messageId := insertMsgResult.value;
        if broadcastingMsgId.Some? {
          var messageBroadcastResult := InsertBroadcastRow(messageId, broadcastingMsgId.value, broadcastFault);
          if messageBroadcastResult.Err? {
            Rollback();
            r := Err(messageBroadcastResult.error);
            assert Current() == before;
          } else {
            Commit();
            r := Ok(EntityId(messageId));
            assert Current() == effect.after;
          }
        } else {
          Commit();
          r := Ok(EntityId(messageId));
          assert Current() == effect.after;
        }
      }
    }

    /**
     * `insert_response_message`: insert the responding message, then the
     * response link from the original message to it, in one transaction
     * (see InsertResponseMessageEffect). The statements run in
     * InsertResponseMessageSteps; the link invariant follows from
     * InsertResponseMessageKeepsWellFormed.
     */
    method InsertResponseMessage(userId: int, body: string, originalMsgId: int,
                                 messageFault: Fault, responseFault: Fault) returns (r: Result<int, DbError>)
      requires Valid() && !InTransaction()
      modifies this
      ensures Valid() && !InTransaction()
      ensures Written(r, Current()) ==
              InsertResponseMessageEffect(old(Current()), old(nextMessageId), old(nextResponseId),
                                          userId, body, originalMsgId, messageFault, responseFault)
      // Each serial counter advances once per row its table gains; the broadcast counter is untouched.
      ensures nextMessageId == old(nextMessageId) + (if messageFault.Pass? then 1 else 0)
      ensures nextResponseId == old(nextResponseId) + (if messageFault.Pass? && responseFault.Pass? then 1 else 0)
      ensures nextBroadcastId == old(nextBroadcastId)
    {
      ghost var before, nm, nb, nr := Current(), nextMessageId, nextBroadcastId, nextResponseId;
      r := InsertResponseMessageSteps(userId, body, originalMsgId, messageFault, responseFault);
      InsertResponseMessageKeepsWellFormed(before, nm, nb, nr, userId, body, originalMsgId, messageFault, responseFault);
    }

    /** The statements of `insert_response_message` between `begin` and `commit` or rollback. */
    method InsertResponseMessageSteps(userId: int, body: string, originalMsgId: int,
                                      messageFault: Fault, responseFault: Fault) returns (r: Result<int, DbError>)
      requires IdsValid() && !InTransaction()
      modifies this
      ensures IdsValid() && !InTransaction()
      ensures Written(r, Current()) ==
              InsertResponseMessageEffect(old(Current()), old(nextMessageId), old(nextResponseId),
                                          userId, body, originalMsgId, messageFault, responseFault)
      ensures nextMessageId == old(nextMessageId) + (if messageFault.Pass? then 1 else 0)
      ensures nextResponseId == old(nextResponseId) + (if messageFault.Pass? && responseFault.Pass? then 1 else 0)
      ensures nextBroadcastId == old(nextBroadcastId)
    {
      ghost var before, nm, nr := Current(), nextMessageId, nextResponseId;
      ghost var effect := InsertResponseMessageEffect(before, nm, nr, userId, body, originalMsgId, messageFault, responseFault);
      Begin();
      var insertMsgResult := InsertMessageRow(userId, body, messageFault);
      if insertMsgResult.Ok? {
        var msgId := insertMsgResult.value;
        var insertResponseResult := InsertResponseRow(originalMsgId, msgId, responseFault);
        if insertResponseResult.Ok? {
          Commit();
          r := Ok(msgId);
          assert Current() == effect.after;
        } else {
          Rollback();
          r := Err(insertResponseResult.error);
          assert Current() == before;
        }
      } else {
        Rollback();
        r := Err(insertMsgResult.error);
        assert Current() == before;
      }
    }
  }
}
