/**
 * The Redux slice `error` (`errorSlice.ts`): the queue of toast messages the
 * frontend shows. Redux Toolkit runs the reducers on a mutable draft, so the
 * slice is a class whose `messages` the reducers change in place.
 */
module ErrorSlice {
  import opened AppToast

  /** `ErrorMessage`; `timestamp` is `Date.now()` when the toast was raised, in milliseconds. */
  datatype ErrorMessage = ErrorMessage(header: string, message: string, timestamp: int, durationMS: int,
                                       toastType: AppToastType)

  /** `Array.prototype.findIndex` for a timestamp: the first index holding it, or -1. */
  function IndexOf(messages: seq<ErrorMessage>, timestamp: int): (r: int)
    ensures -1 <= r < |messages|
    ensures r >= 0 ==> messages[r].timestamp == timestamp
    ensures forall j :: 0 <= j < |messages| && (r == -1 || j < r) ==> messages[j].timestamp != timestamp
  {
    if messages == [] then -1
    else if messages[0].timestamp == timestamp then 0
    else
      var r := IndexOf(messages[1..], timestamp);
      if r == -1 then -1 else r + 1
  }

  /** `findIndex` as the loop it runs. */
  method FindIndex(messages: seq<ErrorMessage>, timestamp: int) returns (index: int)
    ensures index == IndexOf(messages, timestamp)
  {
    index := 0;
    while index < |messages|
      invariant 0 <= index <= |messages|
      invariant forall j :: 0 <= j < index ==> messages[j].timestamp != timestamp
    {
      if messages[index].timestamp == timestamp {
        return;
      }
      index := index + 1;
    }
    index := -1;
  }

  /** `Array.prototype.splice(start, 1)`: a negative start counts from the end, and nothing is removed past it. */
  function SpliceOne<T>(s: seq<T>, start: int): seq<T> {
    var k := if start < 0 then (if |s| + start < 0 then 0 else |s| + start)
             else (if start > |s| then |s| else start);
    if k < |s| then s[..k] + s[k + 1..] else s
  }

  /** The queue after `deleteMessage` of a message with this timestamp. */
  function Deleted(messages: seq<ErrorMessage>, timestamp: int): seq<ErrorMessage> {
    SpliceOne(messages, IndexOf(messages, timestamp))
  }

  /** The first message with the timestamp is removed; those before and after it keep their order. */
  lemma DeleteRemovesFirstMatch(messages: seq<ErrorMessage>, timestamp: int, i: nat)
    requires i < |messages| && messages[i].timestamp == timestamp
    requires forall j :: 0 <= j < i ==> messages[j].timestamp != timestamp
    ensures Deleted(messages, timestamp) == messages[..i] + messages[i + 1..]
  {
  }

  /** With no message carrying the timestamp, `findIndex` gives -1 and `splice(-1, 1)` drops the last message. */
  lemma DeleteWithoutMatchDropsLast(messages: seq<ErrorMessage>, timestamp: int)
    requires messages != []
    requires forall j :: 0 <= j < |messages| ==> messages[j].timestamp != timestamp
    ensures Deleted(messages, timestamp) == messages[..|messages| - 1]
  {
  }

  /** Deleting from the empty queue leaves it empty. */
  lemma DeleteFromEmpty(timestamp: int)
    ensures Deleted([], timestamp) == []
  {
  }

  /** Every deletion from a non-empty queue removes exactly one message. */
  lemma DeleteShrinksByOne(messages: seq<ErrorMessage>, timestamp: int)
    requires messages != []
    ensures |Deleted(messages, timestamp)| == |messages| - 1
  {
  }

  /** A toast shown and then deleted by its own timestamp is gone again, when no older message shares it. */
  lemma ShowThenDeleteRestores(messages: seq<ErrorMessage>, m: ErrorMessage)
    requires forall j :: 0 <= j < |messages| ==> messages[j].timestamp != m.timestamp
    ensures Deleted(messages + [m], m.timestamp) == messages
  {
    DeleteRemovesFirstMatch(messages + [m], m.timestamp, |messages|);
    assert (messages + [m])[..|messages|] == messages;
  }

  /** The slice state. */
  class ErrorSlice {
    var messages: seq<ErrorMessage>

    /** `initialState`: no messages. */
    constructor ()
      ensures messages == []
    {
      messages := [];
    }

    /** `showToast(payload)`; `now` is `Date.now()`. The message goes to the end of the queue. */
    method ShowToast(message: string, durationMS: int, toastType: AppToastType, header: string, now: int)
      modifies this
      ensures messages == old(messages) + [ErrorMessage(header, message, now, durationMS, toastType)]
    {
      messages := messages + [ErrorMessage(header, message, now, durationMS, toastType)];
    }

    /** `deleteMessage(payload)`: find the message by timestamp, then splice one out at that index. */
    method DeleteMessage(message: ErrorMessage)
      modifies this
      ensures messages == Deleted(old(messages), message.timestamp)
    {
      var index := FindIndex(messages, message.timestamp);
      messages := SpliceOne(messages, index);
    }
  }
}
