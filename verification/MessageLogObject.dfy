/** The message log of server/routes/messages.ts as the object the handlers update in place. */
module MessageLogObject {
  import opened Wrappers
  import opened MessageThreads

  class MessageLog {
    var messages: seq<Message>
    var writes: seq<Write>
    var processed: map<nat, Seen>

    constructor ()
      ensures State() == Log([], [], map[])
    {
      messages, writes, processed := [], [], map[];
    }

    function State(): Log
      reads this
    {
      Log(messages, writes, processed)
    }

    // `db.messages.find`
    method FindMessage(p: Message -> bool) returns (r: Option<nat>)
      ensures r == Find(messages, p)
    {
      for i := 0 to |messages|
        invariant forall j | 0 <= j < i :: !p(messages[j])
      {
        if p(messages[i]) {
          FindIsFirst(messages, p, i);
          return Some(i);
        }
      }
      r := None;
    }

    // A post up to the `await` of the database.
    method Post(d: Draft) returns (answer: Answer)
      modifies this
      ensures (State(), answer) == MessageThreads.Post(old(State()), d)
    {
      if d.client.Some? && d.client.value in processed {
        var id := processed[d.client.value].id;
        var existing := FindMessage((m: Message) => m.id == id);
        if existing.Some? { return Duplicate(messages[existing.value]); }
      }
      var root: Option<Id> := d.parent;
      if d.parent.Some? {
        var parent := FindMessage((m: Message) => m.id == d.parent.value && m.tenantId == d.tenantId && !m.deleted);
        if parent.None? { return NotFound; }
        root := if messages[parent.value].root.Some? then messages[parent.value].root else Some(messages[parent.value].id);
      }
      var message := Message(d.id, d.tenantId, d.target, d.parent, root, false, 0, d.now, d.client);
      messages := Add(messages, message);
      writes := Add(writes, Write(d.id, root, d.client));
      answer := Created(message);
    }

    // The post continues after the `await`.
    method Finish(k: nat, now: int)
      requires k < |writes|
      modifies this
      ensures State() == MessageThreads.Finish(old(State()), k, now)
    {
      var w := writes[k];
      writes := RemoveAt(writes, k);
      if w.client.Some? {
        processed := processed[w.client.value := Seen(w.id, now)];
      }
      if w.root.Some? {
        var root := FindMessage((m: Message) => m.id == w.root.value);
        if root.Some? {
          messages := messages[root.value := messages[root.value].(repliesCount := messages[root.value].repliesCount + 1)];
        }
      }
    }

    method Delete(id: Id, tenantId: nat) returns (found: bool)
      modifies this
      ensures State() == MessageThreads.Delete(old(State()), id, tenantId)
      ensures found <==> exists m | m in old(messages) :: m.id == id && m.tenantId == tenantId
    {
      var i := FindMessage((m: Message) => m.id == id && m.tenantId == tenantId);
      found := i.Some?;
      if found {
        messages := messages[i.value := messages[i.value].(deleted := true)];
      }
    }
  }

  lemma {:induction false} FindIsFirst(ms: seq<Message>, p: Message -> bool, i: nat)
    requires i < |ms| && p(ms[i]) && forall j | 0 <= j < i :: !p(ms[j])
    ensures Find(ms, p) == Some(i)
  {
  }
}
