/** The admission loop's end of the event bus. */
module AdmissionBus {
  import opened AdmissionWake

  /** How a wait for a relevant event comes out; `Waiting` when nothing more is queued. */
  datatype Heard = Woken | Closed | Waiting

  /** Where the first relevant event is; `|queue|` when there is none. */
  function FirstRelevant(queue: seq<Note>): (i: nat)
    ensures i <= |queue|
    ensures forall j :: 0 <= j < i ==> !queue[j].relevant
    ensures i < |queue| ==> queue[i].relevant
  {
    if queue == [] || queue[0].relevant then 0 else 1 + FirstRelevant(queue[1..])
  }

  class Receiver {
    var queue: seq<Note>
    var lagged: bool
    var closed: bool

    /** Drops what is queued. False when the bus is closed. */
    method DrainQueued() returns (open: bool)
      modifies this`queue, this`lagged
      ensures open == !closed && queue == [] && !lagged
    {
      while true
        decreases |queue|, lagged
      {
        if lagged {
          lagged := false;
        } else if queue != [] {
          queue := queue[1..];
        } else {
          return !closed;
        }
      }
    }

    /** Takes events until a relevant one, or until it learns that it lagged. No relevant event is dropped unheard. */
    method RelevantEvent() returns (heard: Heard)
      modifies this`queue, this`lagged
      ensures !lagged
      ensures old(lagged) ==> heard.Woken? && queue == old(queue)
      ensures !old(lagged) ==> (heard.Woken? <==> exists i :: 0 <= i < |old(queue)| && old(queue)[i].relevant)
      ensures !old(lagged) && heard.Woken? ==> queue == old(queue)[FirstRelevant(old(queue)) + 1..]
      ensures !heard.Woken? ==> queue == [] && (heard.Closed? <==> closed)
    {
      while true
        invariant lagged == old(lagged)
        invariant lagged ==> queue == old(queue)
        invariant |queue| <= |old(queue)| && queue == old(queue)[|old(queue)| - |queue|..]
        invariant forall i :: 0 <= i < |old(queue)| - |queue| ==> !old(queue)[i].relevant
        decreases |queue|
      {
        if lagged {
          lagged := false;
          return Woken;
        }
        if queue == [] {
          return if closed then Closed else Waiting;
        }
        var note := queue[0];
        assert note == old(queue)[|old(queue)| - |queue|];
        queue := queue[1..];
        if note.relevant {
          return Woken;
        }
      }
    }
  }
}
