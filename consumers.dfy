/**
 * quiz_project/quiz/consumers.py: the websocket consumer behind the countdown.
 * Every connection joins the one group "quiz_timer"; a "start_timer" action
 * makes that connection send 31 group messages, 30 down to 0, each of which
 * every member turns into `{"seconds_remaining": n}` on its own socket.
 *
 * The channel layer is a class holding group membership and the log of group
 * messages sent. Its delivery of a group message to each member's `send_timer`
 * and the one-second sleeps are not part of this model.
 */
module Consumers {
  import opened Wrappers
  import Text

  const GroupName: string := "quiz_timer"
  const StartAction: string := "start_timer"
  const TimerEventType: string := "send_timer"
  const ActionKey: string := "action"

  /** `{"type": kind, "seconds_remaining": n}` */
  datatype GroupMessage = GroupMessage(kind: string, secondsRemaining: int)

  /** `list(range(start, stop, -1))` */
  function RangeDown(start: int, stop: int): seq<int>
    decreases start - stop
  {
    if start <= stop then [] else [start] + RangeDown(start - 1, stop)
  }

  lemma {:induction false} RangeDownAt(start: int, stop: int)
    ensures |RangeDown(start, stop)| == if start <= stop then 0 else start - stop
    ensures forall i :: 0 <= i < |RangeDown(start, stop)| ==> RangeDown(start, stop)[i] == start - i
    decreases start - stop
  {
    if start > stop {
      RangeDownAt(start - 1, stop);
      var rest := RangeDown(start - 1, stop);
      assert RangeDown(start, stop) == [start] + rest;
      forall i | 0 < i < |RangeDown(start, stop)| ensures RangeDown(start, stop)[i] == start - i {
        assert RangeDown(start, stop)[i] == rest[i - 1];
      }
    }
  }

  const CountdownStart: int := 30
  const CountdownStop: int := -1

  /** The values `start_countdown` sends: `range(30, -1, -1)`. */
  function CountdownValues(): seq<int>
  {
    RangeDown(CountdownStart, CountdownStop)
  }

  /**
   * 31 values, 30 first and 0 last, each within [0, 30], each one less than the
   * one before.
   */
  lemma CountdownShape()
    ensures |CountdownValues()| == 31
    ensures CountdownValues()[0] == 30 && CountdownValues()[30] == 0
    ensures forall i :: 0 <= i < 31 ==> CountdownValues()[i] == 30 - i
    ensures forall i :: 0 <= i < 31 ==> 0 <= CountdownValues()[i] <= 30
    ensures forall i :: 0 < i < 31 ==> CountdownValues()[i] == CountdownValues()[i - 1] - 1
  {
    RangeDownAt(CountdownStart, CountdownStop);
  }

  /** The group messages of one countdown, in the order they are sent. */
  function CountdownMessages(): (r: seq<GroupMessage>)
  {
    var vals := CountdownValues();
    seq(|vals|, i requires 0 <= i < |vals| => GroupMessage(TimerEventType, vals[i]))
  }

  lemma CountdownMessagesShape()
    ensures |CountdownMessages()| == 31
    ensures forall i :: 0 <= i < 31 ==> CountdownMessages()[i] == GroupMessage(TimerEventType, 30 - i)
  {
    CountdownShape();
  }

  // ---------------------------------------------------------------------
  // The text `send_timer` writes on the socket

  const PayloadPrefix: string := "{\"seconds_remaining\": "
  const PayloadSuffix: string := "}"

  /** `json.dumps({"seconds_remaining": n})`, with json's default separators. */
  function TimerPayload(n: int): string
  {
    PayloadPrefix + Text.IntToString(n) + PayloadSuffix
  }

  /** Reads back a payload written by `TimerPayload`; `None` for any other text. */
  function ParseTimerPayload(s: string): Option<int>
  {
    if |s| >= |PayloadPrefix| + |PayloadSuffix| && s[..|PayloadPrefix|] == PayloadPrefix && s[|s| - 1..] == PayloadSuffix
    then Text.ParseInt(s[|PayloadPrefix|..|s| - 1])
    else None
  }

  /** The payload holds exactly one key, `seconds_remaining`, and its value reads back unchanged. */
  lemma TimerPayloadRoundTrip(n: int)
    ensures ParseTimerPayload(TimerPayload(n)) == Some(n)
  {
    var digits := Text.IntToString(n);
    var s := TimerPayload(n);
    Text.IntToStringRoundTrip(n);
    assert s[..|PayloadPrefix|] == PayloadPrefix;
    assert s[|s| - 1..] == PayloadSuffix;
    assert s[|PayloadPrefix|..|s| - 1] == digits;
  }

  /** Members of a group, empty for a group never used. */
  function Members(groups: map<string, set<string>>, group: string): set<string>
  {
    if group in groups then groups[group] else {}
  }

  class ChannelLayer {
    var groups: map<string, set<string>>
    /** Every `group_send`, as (group, message), in the order sent. */
    var sent: seq<(string, GroupMessage)>

    constructor ()
      ensures groups == map[] && sent == []
    {
      groups := map[];
      sent := [];
    }

    method GroupAdd(group: string, channel: string)
      modifies this
      ensures groups == old(groups)[group := Members(old(groups), group) + {channel}]
      ensures sent == old(sent)
    {
      groups := groups[group := Members(groups, group) + {channel}];
    }

    method GroupDiscard(group: string, channel: string)
      modifies this
      ensures groups == old(groups)[group := Members(old(groups), group) - {channel}]
      ensures channel !in Members(groups, group)
      ensures forall g, other :: (other != channel || g != group) ==>
                (other in Members(groups, g) <==> other in Members(old(groups), g))
      ensures sent == old(sent)
    {
      groups := groups[group := Members(groups, group) - {channel}];
    }

    method GroupSend(group: string, message: GroupMessage)
      modifies this
      ensures sent == old(sent) + [(group, message)]
      ensures groups == old(groups)
    {
      sent := sent + [(group, message)];
    }
  }

  /** `group_send(group, {"type": "send_timer", "seconds_remaining": v})` for each v of `values`, as recorded by the layer. */
  function TimerSends(group: string, values: seq<int>): (r: seq<(string, GroupMessage)>)
    ensures |r| == |values|
    ensures forall i :: 0 <= i < |values| ==> r[i] == (group, GroupMessage(TimerEventType, values[i]))
  {
    seq(|values|, i requires 0 <= i < |values| => (group, GroupMessage(TimerEventType, values[i])))
  }

  /** The sends of one countdown to `group`: the countdown messages, in order. */
  function CountdownSends(group: string): (r: seq<(string, GroupMessage)>)
  {
    TimerSends(group, CountdownValues())
  }

  /** The sends of a countdown are the countdown messages, all addressed to the group. */
  lemma CountdownSendsAreMessages(group: string)
    ensures |CountdownSends(group)| == |CountdownMessages()| == 31
    ensures forall i :: 0 <= i < 31 ==> CountdownSends(group)[i] == (group, CountdownMessages()[i])
  {
    CountdownMessagesShape();
    CountdownShape();
  }

  class QuizTimerConsumer {
    const channelName: string
    const layer: ChannelLayer
    /** `self.room_group_name`, set by `connect`. */
    var roomGroupName: Option<string>
    var accepted: bool
    /** The texts sent on this connection's socket. */
    var outbox: seq<string>

    constructor (channelName: string, layer: ChannelLayer)
      ensures this.channelName == channelName && this.layer == layer
      ensures roomGroupName == None && !accepted && outbox == []
    {
      this.channelName := channelName;
      this.layer := layer;
      roomGroupName := None;
      accepted := false;
      outbox := [];
    }

    /** `connect`: join "quiz_timer" and accept the socket. */
    method Connect()
      modifies this, layer
      ensures roomGroupName == Some(GroupName) && accepted && outbox == old(outbox)
      ensures layer.groups == old(layer.groups)[GroupName := Members(old(layer.groups), GroupName) + {channelName}]
      ensures layer.sent == old(layer.sent)
    {
      roomGroupName := Some(GroupName);
      layer.GroupAdd(GroupName, channelName);
      accepted := true;
    }

    /** `disconnect`: leave the group joined in `connect`; other members stay. */
    method Disconnect(closeCode: int)
      requires roomGroupName.Some?
      modifies layer
      ensures layer.groups == old(layer.groups)[roomGroupName.value := Members(old(layer.groups), roomGroupName.value) - {channelName}]
      ensures layer.sent == old(layer.sent)
    {
      layer.GroupDiscard(roomGroupName.value, channelName);
    }

    /**
     * `receive`: `data` is the decoded JSON object (a value that is not a string
     * is modelled as an absent key, since it cannot equal "start_timer"). Only the
     * action "start_timer" starts a countdown; anything else sends nothing.
     */
    method Receive(data: map<string, string>)
      requires roomGroupName.Some?
      modifies layer
      ensures layer.groups == old(layer.groups)
      ensures ActionKey in data && data[ActionKey] == StartAction ==>
        layer.sent == old(layer.sent) + CountdownSends(roomGroupName.value)
      ensures !(ActionKey in data && data[ActionKey] == StartAction) ==> layer.sent == old(layer.sent)
    {
      var action: Option<string> := if ActionKey in data then Some(data[ActionKey]) else None;
      if action == Some(StartAction) {
        StartCountdown();
      }
    }

    /** `start_countdown`: one group message per value of `range(30, -1, -1)`, in order. */
    method StartCountdown()
      requires roomGroupName.Some?
      modifies layer
      ensures layer.groups == old(layer.groups)
      ensures layer.sent == old(layer.sent) + CountdownSends(roomGroupName.value)
    {
      SendTimers(roomGroupName.value, CountdownValues());
    }

    /** The loop of `start_countdown` over the given values. */
    method SendTimers(group: string, values: seq<int>)
      modifies layer
      ensures layer.groups == old(layer.groups)
      ensures layer.sent == old(layer.sent) + TimerSends(group, values)
    {
      for i := 0 to |values|
        invariant layer.groups == old(layer.groups)
        invariant layer.sent == old(layer.sent) + TimerSends(group, values[..i])
      {
        layer.GroupSend(group, GroupMessage(TimerEventType, values[i]));
        assert TimerSends(group, values[..i + 1]) == TimerSends(group, values[..i]) + [(group, GroupMessage(TimerEventType, values[i]))];
      }
      assert values[..|values|] == values;
    }

    /** `send_timer`: write the event's value to this socket as `{"seconds_remaining": n}`. */
    method SendTimer(event: GroupMessage)
      modifies this`outbox
      ensures outbox == old(outbox) + [TimerPayload(event.secondsRemaining)]
    {
      outbox := outbox + [TimerPayload(event.secondsRemaining)];
    }
  }

  /**
   * Two connections on one layer: both are members of "quiz_timer", and when one
   * disconnects the other stays.
   */
  method TwoConnections(layer: ChannelLayer, a: QuizTimerConsumer, b: QuizTimerConsumer)
    requires a.layer == layer && b.layer == layer && a != b && a.channelName != b.channelName
    modifies a, b, layer
    ensures b.channelName in Members(layer.groups, GroupName) && a.channelName !in Members(layer.groups, GroupName)
  {
    a.Connect();
    b.Connect();
    a.Disconnect(1000);
  }
}
