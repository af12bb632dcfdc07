/**
 Messages between stages, and the history stack that says which sends still stand.
 */
module Messages {
  import opened Plan

  // ----- the history stack -----

  /** The last place of `target` in the stack, or its length. */
  function LastPlace(stack: seq<NodeKey>, target: NodeKey): (i: nat)
    ensures i <= |stack|
    ensures i < |stack| ==> stack[i] == target && target !in stack[i+1..]
    ensures i == |stack| <==> target !in stack
  {
    if stack == [] then 0
    else
      var last := |stack| - 1;
      if stack[last] == target then last
      else
        var i := LastPlace(stack[..last], target);
        assert i < last ==> stack[i+1..] == stack[..last][i+1..] + [stack[last]];
        if i == last then |stack| else i
  }

  /** Where a rewind to `target` cuts the stack: at its last place, or at the bottom if it is not there. */
  function CutAt(stack: seq<NodeKey>, target: NodeKey): nat {
    var i := LastPlace(stack, target);
    if i < |stack| then i else 0
  }

  class NodeHistory {
    var stack: seq<NodeKey>

    constructor ()
      ensures stack == []
    {
      stack := [];
    }

    method Push(key: NodeKey)
      modifies this
      ensures stack == old(stack) + [key]
    {
      stack := stack + [key];
    }

    function Peek(): NodeKey
      reads this
    {
      if stack == [] then "" else stack[|stack|-1]
    }

    /** Pops down to and including the last `target`, or everything when it is absent: nothing is lost or reordered. */
    method PopTo(target: NodeKey) returns (popped: seq<NodeKey>)
      modifies this
      ensures stack + popped == old(stack)
      ensures stack == old(stack)[..CutAt(old(stack), target)]
      ensures target in old(stack) ==> popped != [] && popped[0] == target && target !in popped[1..]
      ensures target !in old(stack) ==> stack == []
    {
      var idx := LastIndex(stack, target);
      CutSplits(stack, target);
      if idx == -1 {
        popped := stack;
        stack := [];
      } else {
        popped := stack[idx..];
        stack := stack[..idx];
      }
    }

    /** Steps back over exactly one node. */
    method PopOne() returns (target: NodeKey, popped: seq<NodeKey>, ok: bool)
      modifies this
      ensures ok <==> old(Peek()) != ""
      ensures !ok ==> stack == old(stack) && popped == []
      ensures ok ==> target == old(Peek()) && popped == [target] && stack == old(stack)[..|old(stack)|-1]
    {
      var top := Peek();
      if top == "" {
        return "", [], false;
      }
      LastPlaceIsLast(stack, top, |stack| - 1);
      popped := PopTo(top);
      return top, popped, true;
    }
  }

  /** The search from the top: the last place of `target`, or -1. */
  method LastIndex(stack: seq<NodeKey>, target: NodeKey) returns (idx: int)
    ensures idx == if LastPlace(stack, target) < |stack| then LastPlace(stack, target) else -1
  {
    idx := |stack| - 1;
    while idx >= 0
      invariant -1 <= idx < |stack|
      invariant target !in stack[idx+1..]
    {
      if stack[idx] == target {
        LastPlaceIsLast(stack, target, idx);
        return;
      }
      assert stack[idx..] == [stack[idx]] + stack[idx+1..];
      idx := idx - 1;
    }
    assert stack[0..] == stack;
  }

  /** What the cut leaves and what it takes off. */
  lemma CutSplits(stack: seq<NodeKey>, target: NodeKey)
    ensures stack[..CutAt(stack, target)] + stack[CutAt(stack, target)..] == stack
    ensures target in stack ==> LastPlace(stack, target) < |stack| && stack[CutAt(stack, target)..][0] == target
    ensures target in stack ==> target !in stack[CutAt(stack, target)..][1..]
    ensures target !in stack ==> LastPlace(stack, target) == |stack| && stack[CutAt(stack, target)..] == stack
  {
    var i := LastPlace(stack, target);
    if i < |stack| {
      assert stack[i..][1..] == stack[i+1..];
    }
  }

  lemma LastPlaceIsLast(stack: seq<NodeKey>, target: NodeKey, i: nat)
    requires i < |stack| && stack[i] == target && target !in stack[i+1..]
    ensures LastPlace(stack, target) == i
  {
  }

  // ----- the buffer, with every message and every wait numbered in the order they came -----

  datatype Message = Message(node: NodeKey, number: nat)

  /** A message handed to a waiting channel. */
  datatype Match = Match(message: nat, channel: nat)

  /** One message name: what is buffered, who waits, and the matches made so far. */
  datatype Box = Box(messages: seq<Message>, waiters: seq<nat>, served: seq<Match>)

  datatype Buffer = Buffer(boxes: map<string, Box>, sent: nat, asked: nat)

  const EMPTY := Buffer(map[], 0, 0)

  function BoxAt(b: Buffer, name: string): Box {
    if name in b.boxes then b.boxes[name] else Box([], [], [])
  }

  /** A message goes to the first waiter, or else to the end of the buffer. */
  function SendInBox(box: Box, node: NodeKey, number: nat): Box {
    if box.waiters != [] then
      Box(box.messages, box.waiters[1..], box.served + [Match(number, box.waiters[0])])
    else
      box.(messages := box.messages + [Message(node, number)])
  }

  /** A waiter takes the first message, or else waits behind the others. */
  function WaitInBox(box: Box, channel: nat): Box {
    if box.messages != [] then
      Box(box.messages[1..], box.waiters, box.served + [Match(box.messages[0].number, channel)])
    else
      box.(waiters := box.waiters + [channel])
  }

  function Without(queue: seq<nat>, channel: nat): seq<nat> {
    if queue == [] then []
    else if queue[0] == channel then queue[1..]
    else [queue[0]] + Without(queue[1..], channel)
  }

  function Kept(entries: seq<Message>, span: seq<NodeKey>): seq<Message> {
    if entries == [] then []
    else if entries[0].node in span then Kept(entries[1..], span)
    else [entries[0]] + Kept(entries[1..], span)
  }

  function SendMessage(b: Buffer, name: string, node: NodeKey): Buffer {
    b.(boxes := b.boxes[name := SendInBox(BoxAt(b, name), node, b.sent)], sent := b.sent + 1)
  }

  function WaitFor(b: Buffer, name: string): Buffer {
    b.(boxes := b.boxes[name := WaitInBox(BoxAt(b, name), b.asked)], asked := b.asked + 1)
  }

  function CancelWait(b: Buffer, name: string, channel: nat): Buffer {
    var box := BoxAt(b, name);
    b.(boxes := b.boxes[name := box.(waiters := Without(box.waiters, channel))])
  }

  function Reset(b: Buffer, span: seq<NodeKey>): Buffer {
    b.(boxes := map name | name in b.boxes :: b.boxes[name].(messages := Kept(b.boxes[name].messages, span)))
  }

  // ----- every run of sends, waits, cancels and rewinds -----

  datatype Mail = Mail(stack: seq<NodeKey>, buffer: Buffer)

  /** What happens between two points where a coroutine gives way: a send also pushes its node, a rewind pops and resets. */
  datatype Event =
    | Send(name: string, node: NodeKey)
    | Complete(node: NodeKey)
    | Wait(name: string)
    | Cancel(name: string, channel: nat)
    | Rewind(target: NodeKey)
    | Forget(node: NodeKey)

  function Next(m: Mail, e: Event): Mail {
    match e
    case Send(name, node) => Mail(m.stack + [node], SendMessage(m.buffer, name, node))
    case Complete(node) => m.(stack := m.stack + [node])
    case Wait(name) => m.(buffer := WaitFor(m.buffer, name))
    case Cancel(name, channel) => m.(buffer := CancelWait(m.buffer, name, channel))
    case Rewind(target) =>
      var cut := CutAt(m.stack, target);
      Mail(m.stack[..cut], Reset(m.buffer, m.stack[cut..]))
    case Forget(node) => m.(buffer := Reset(m.buffer, [node]))
  }

  function Run(m: Mail, events: seq<Event>): Mail
    decreases |events|
  {
    if events == [] then m else Run(Next(m, events[0]), events[1..])
  }

  ghost predicate WaitersIncrease(s: seq<nat>, bound: nat) {
    && (forall i, j | 0 <= i < j < |s| :: s[i] < s[j])
    && (forall i | 0 <= i < |s| :: s[i] < bound)
  }

  ghost predicate NumbersIncrease(s: seq<Message>, bound: nat) {
    && (forall i, j | 0 <= i < j < |s| :: s[i].number < s[j].number)
    && (forall i | 0 <= i < |s| :: s[i].number < bound)
  }

  /** Matches in the order they were made: later ones take later messages to later waiters. */
  ghost predicate FirstInFirstOut(served: seq<Match>) {
    forall i, j | 0 <= i < j < |served| :: served[i].message < served[j].message && served[i].channel < served[j].channel
  }

  /** Every match so far is of an earlier message than `message` and an earlier waiter than `channel`. */
  ghost predicate MatchedBefore(served: seq<Match>, message: nat, channel: nat) {
    forall i | 0 <= i < |served| :: served[i].message < message && served[i].channel < channel
  }

  /** Queues never both non-empty, in order, and later than everything already matched. */
  ghost predicate BoxInv(box: Box, sent: nat, asked: nat) {
    && (box.messages == [] || box.waiters == [])
    && NumbersIncrease(box.messages, sent) && WaitersIncrease(box.waiters, asked)
    && FirstInFirstOut(box.served)
    && MatchedBefore(box.served,
                     if box.messages != [] then box.messages[0].number else sent,
                     if box.waiters != [] then box.waiters[0] else asked)
  }

  ghost predicate BufferInv(b: Buffer) {
    forall name :: BoxInv(BoxAt(b, name), b.sent, b.asked)
  }

  ghost predicate SentFrom(messages: seq<Message>, stack: seq<NodeKey>) {
    forall i | 0 <= i < |messages| :: messages[i].node in stack
  }

  ghost predicate SentByHistory(m: Mail) {
    forall name :: SentFrom(BoxAt(m.buffer, name).messages, m.stack)
  }

  lemma {:induction false} KeptIsSelected(entries: seq<Message>, span: seq<NodeKey>)
    ensures forall e :: e in Kept(entries, span) <==> e in entries && e.node !in span
  {
    if entries != [] {
      KeptIsSelected(entries[1..], span);
      assert entries == [entries[0]] + entries[1..];
    }
  }

  lemma NumbersTail(entries: seq<Message>, bound: nat)
    requires NumbersIncrease(entries, bound) && entries != []
    ensures NumbersIncrease(entries[1..], bound)
    ensures forall e | e in entries[1..] :: entries[0].number < e.number
  {
  }

  lemma NumbersPrepended(first: Message, rest: seq<Message>, bound: nat)
    requires NumbersIncrease(rest, bound) && first.number < bound && forall e | e in rest :: first.number < e.number
    ensures NumbersIncrease([first] + rest, bound)
  {
    assert forall i | 0 <= i < |rest| :: rest[i] in rest;
  }

  lemma {:induction false} KeptIsOrdered(entries: seq<Message>, span: seq<NodeKey>, bound: nat)
    requires NumbersIncrease(entries, bound)
    ensures NumbersIncrease(Kept(entries, span), bound)
  {
    if entries != [] {
      NumbersTail(entries, bound);
      KeptIsOrdered(entries[1..], span, bound);
      KeptIsSelected(entries[1..], span);
      NumbersPrepended(entries[0], Kept(entries[1..], span), bound);
    }
  }

  lemma {:induction false} WithoutIsSelected(queue: seq<nat>, channel: nat)
    ensures forall c | c in Without(queue, channel) :: c in queue
  {
    if queue != [] {
      WithoutIsSelected(queue[1..], channel);
    }
  }

  lemma {:induction false} WithoutIsOrdered(queue: seq<nat>, channel: nat, bound: nat)
    requires WaitersIncrease(queue, bound)
    ensures WaitersIncrease(Without(queue, channel), bound)
  {
    if queue != [] {
      var tail := queue[1..];
      assert forall i | 0 <= i < |tail| :: tail[i] == queue[i+1];
      assert WaitersIncrease(tail, bound);
      if queue[0] != channel {
        WithoutIsOrdered(tail, channel, bound);
        WithoutIsSelected(tail, channel);
        var rest := Without(tail, channel);
        forall i | 0 <= i < |rest| ensures queue[0] < rest[i] {
          assert rest[i] in tail;
        }
      }
    }
  }

  lemma SendKeepsBox(box: Box, node: NodeKey, sent: nat, asked: nat)
    requires BoxInv(box, sent, asked)
    ensures BoxInv(SendInBox(box, node, sent), sent + 1, asked)
  {
  }

  lemma WaitKeepsBox(box: Box, sent: nat, asked: nat)
    requires BoxInv(box, sent, asked)
    ensures BoxInv(WaitInBox(box, asked), sent, asked + 1)
  {
  }

  lemma CancelKeepsBox(box: Box, channel: nat, sent: nat, asked: nat)
    requires BoxInv(box, sent, asked)
    ensures BoxInv(box.(waiters := Without(box.waiters, channel)), sent, asked)
  {
    WithoutIsOrdered(box.waiters, channel, asked);
    WithoutIsSelected(box.waiters, channel);
    var rest := Without(box.waiters, channel);
    if rest != [] {
      assert rest[0] in box.waiters;
      assert box.waiters[0] <= rest[0];
    }
  }

  lemma ResetKeepsBox(box: Box, span: seq<NodeKey>, sent: nat, asked: nat)
    requires BoxInv(box, sent, asked)
    ensures BoxInv(box.(messages := Kept(box.messages, span)), sent, asked)
  {
    KeptIsOrdered(box.messages, span, sent);
    KeptIsSelected(box.messages, span);
    var kept := Kept(box.messages, span);
    if kept != [] {
      assert kept[0] in box.messages;
      assert box.messages[0].number <= kept[0].number;
    }
  }

  lemma BoxLater(box: Box, sent: nat, asked: nat, sentNow: nat, askedNow: nat)
    requires BoxInv(box, sent, asked) && sent <= sentNow && asked <= askedNow
    ensures BoxInv(box, sentNow, askedNow)
  {
  }

  lemma SendKeepsOrder(b: Buffer, name: string, node: NodeKey)
    requires BufferInv(b)
    ensures BufferInv(SendMessage(b, name, node))
  {
    var t := SendMessage(b, name, node);
    forall n ensures BoxInv(BoxAt(t, n), t.sent, t.asked) {
      BoxLater(BoxAt(b, n), b.sent, b.asked, t.sent, t.asked);
      SendKeepsBox(BoxAt(b, n), node, b.sent, b.asked);
    }
  }

  lemma WaitKeepsOrder(b: Buffer, name: string)
    requires BufferInv(b)
    ensures BufferInv(WaitFor(b, name))
  {
    var t := WaitFor(b, name);
    forall n ensures BoxInv(BoxAt(t, n), t.sent, t.asked) {
      BoxLater(BoxAt(b, n), b.sent, b.asked, t.sent, t.asked);
      WaitKeepsBox(BoxAt(b, n), b.sent, b.asked);
    }
  }

  lemma CancelKeepsOrder(b: Buffer, name: string, channel: nat)
    requires BufferInv(b)
    ensures BufferInv(CancelWait(b, name, channel))
  {
    var t := CancelWait(b, name, channel);
    forall n ensures BoxInv(BoxAt(t, n), t.sent, t.asked) {
      CancelKeepsBox(BoxAt(b, n), channel, b.sent, b.asked);
    }
  }

  lemma ResetBox(b: Buffer, span: seq<NodeKey>, name: string)
    ensures BoxAt(Reset(b, span), name) == BoxAt(b, name).(messages := Kept(BoxAt(b, name).messages, span))
  {
  }

  lemma ResetKeepsOrder(b: Buffer, span: seq<NodeKey>)
    requires BufferInv(b)
    ensures BufferInv(Reset(b, span))
  {
    forall n ensures BoxInv(BoxAt(Reset(b, span), n), b.sent, b.asked) {
      ResetBox(b, span, n);
      ResetKeepsBox(BoxAt(b, n), span, b.sent, b.asked);
    }
  }

  lemma NextKeepsOrder(m: Mail, e: Event)
    requires BufferInv(m.buffer)
    ensures BufferInv(Next(m, e).buffer)
  {
    match e
    case Send(name, node) => SendKeepsOrder(m.buffer, name, node);
    case Complete(node) =>
    case Wait(name) => WaitKeepsOrder(m.buffer, name);
    case Cancel(name, channel) => CancelKeepsOrder(m.buffer, name, channel);
    case Rewind(target) => ResetKeepsOrder(m.buffer, m.stack[CutAt(m.stack, target)..]);
    case Forget(node) => ResetKeepsOrder(m.buffer, [node]);
  }

  lemma ResetKeepsSenders(b: Buffer, span: seq<NodeKey>, stack: seq<NodeKey>, remaining: seq<NodeKey>)
    requires SentByHistory(Mail(stack, b))
    requires forall n | n in stack && n !in span :: n in remaining
    ensures SentByHistory(Mail(remaining, Reset(b, span)))
  {
    forall name ensures SentFrom(BoxAt(Reset(b, span), name).messages, remaining) {
      ResetBox(b, span, name);
      var messages := BoxAt(b, name).messages;
      assert SentFrom(messages, stack);
      KeptIsSelected(messages, span);
      forall i | 0 <= i < |Kept(messages, span)| ensures Kept(messages, span)[i].node in remaining {
        assert Kept(messages, span)[i] in messages;
      }
    }
  }

  lemma SendKeepsSenders(m: Mail, name: string, node: NodeKey)
    requires SentByHistory(m)
    ensures SentByHistory(Next(m, Send(name, node)))
  {
    forall n ensures SentFrom(BoxAt(SendMessage(m.buffer, name, node), n).messages, m.stack + [node]) {
      assert SentFrom(BoxAt(m.buffer, n).messages, m.stack);
    }
  }

  /** Taking messages or waiters out leaves every sender on the history. */
  lemma FewerKeepSenders(b: Buffer, t: Buffer, stack: seq<NodeKey>, longer: seq<NodeKey>)
    requires SentByHistory(Mail(stack, b))
    requires forall n | n in stack :: n in longer
    requires forall name :: forall x | x in BoxAt(t, name).messages :: x in BoxAt(b, name).messages
    ensures SentByHistory(Mail(longer, t))
  {
    forall name ensures SentFrom(BoxAt(t, name).messages, longer) {
      assert SentFrom(BoxAt(b, name).messages, stack);
      forall i | 0 <= i < |BoxAt(t, name).messages| ensures BoxAt(t, name).messages[i].node in longer {
        assert BoxAt(t, name).messages[i] in BoxAt(b, name).messages;
      }
    }
  }

  lemma NextKeepsSenders(m: Mail, e: Event)
    requires SentByHistory(m)
    ensures SentByHistory(Next(m, e))
  {
    match e
    case Send(name, node) => SendKeepsSenders(m, name, node);
    case Complete(node) => FewerKeepSenders(m.buffer, m.buffer, m.stack, m.stack + [node]);
    case Wait(name) => FewerKeepSenders(m.buffer, WaitFor(m.buffer, name), m.stack, m.stack);
    case Cancel(name, channel) => FewerKeepSenders(m.buffer, CancelWait(m.buffer, name, channel), m.stack, m.stack);
    case Rewind(target) =>
      var cut := CutAt(m.stack, target);
      assert m.stack == m.stack[..cut] + m.stack[cut..];
      ResetKeepsSenders(m.buffer, m.stack[cut..], m.stack, m.stack[..cut]);
    case Forget(node) => ResetKeepsSenders(m.buffer, [node], m.stack, m.stack);
  }

  lemma {:induction false} MailStaysInOrder(m: Mail, events: seq<Event>)
    requires BufferInv(m.buffer) && SentByHistory(m)
    ensures BufferInv(Run(m, events).buffer) && SentByHistory(Run(m, events))
    decreases |events|
  {
    if events != [] {
      NextKeepsOrder(m, events[0]);
      NextKeepsSenders(m, events[0]);
      MailStaysInOrder(Next(m, events[0]), events[1..]);
    }
  }

  /**
   In every state a run reaches, each buffered message was sent by a node still on the history stack, no name has both messages
   and waiters, and the matches made so far are first in, first out, with each message and each waiter matched at most once.
   */
  lemma MailFromTheStart(events: seq<Event>, name: string)
    ensures var m := Run(Mail([], EMPTY), events);
            var box := BoxAt(m.buffer, name);
            && SentFrom(box.messages, m.stack)
            && (box.messages == [] || box.waiters == [])
            && FirstInFirstOut(box.served)
  {
    MailStaysInOrder(Mail([], EMPTY), events);
    var m := Run(Mail([], EMPTY), events);
    assert BoxInv(BoxAt(m.buffer, name), m.buffer.sent, m.buffer.asked);
  }

  // ----- nothing is lost -----

  /** Event `j` takes back what the node sent: a rewind past it, or the node being forgotten. */
  ghost predicate TakesBack(m: Mail, events: seq<Event>, node: NodeKey, j: nat) {
    && j < |events|
    && match events[j]
       case Rewind(target) =>
         var stack := Run(m, events[..j]).stack;
         node in stack[CutAt(stack, target)..]
       case Forget(forgotten) => forgotten == node
       case _ => false
  }

  predicate Matched(m: Mail, name: string, message: nat) {
    exists x :: x in BoxAt(m.buffer, name).served && x.message == message
  }

  predicate Served(m: Mail, name: string, channel: nat) {
    exists x :: x in BoxAt(m.buffer, name).served && x.channel == channel
  }

  /** Matches are never undone. */
  lemma NextKeepsMatches(m: Mail, e: Event, name: string)
    ensures BoxAt(m.buffer, name).served <= BoxAt(Next(m, e).buffer, name).served
  {
    if e.Rewind? {
      ResetBox(m.buffer, m.stack[CutAt(m.stack, e.target)..], name);
    } else if e.Forget? {
      ResetBox(m.buffer, [e.node], name);
    }
  }

  lemma {:induction false} RunKeepsMatches(m: Mail, events: seq<Event>, name: string)
    ensures BoxAt(m.buffer, name).served <= BoxAt(Run(m, events).buffer, name).served
    decreases |events|
  {
    if events != [] {
      NextKeepsMatches(m, events[0], name);
      RunKeepsMatches(Next(m, events[0]), events[1..], name);
    }
  }

  /** One event: a buffered message stays, is matched, or is taken back. */
  lemma NextKeepsMessage(m: Mail, e: Event, name: string, x: Message)
    requires x in BoxAt(m.buffer, name).messages
    ensures x in BoxAt(Next(m, e).buffer, name).messages || Matched(Next(m, e), name, x.number) || TakesBack(m, [e], x.node, 0)
  {
    var box, t := BoxAt(m.buffer, name), Next(m, e);
    match e
    case Wait(n) =>
      if n == name && x == box.messages[0] {
        assert BoxAt(t.buffer, name).served[|box.served|] == Match(x.number, m.buffer.asked);
      } else if n == name {
        assert x in box.messages[1..];
      }
    case Rewind(target) =>
      var span := m.stack[CutAt(m.stack, target)..];
      assert [e][..0] == [] && Run(m, []) == m;
      ResetBox(m.buffer, span, name);
      KeptIsSelected(box.messages, span);
    case Forget(node) =>
      ResetBox(m.buffer, [node], name);
      KeptIsSelected(box.messages, [node]);
    case _ =>
  }

  /** What an event after the first takes back. */
  lemma TakesBackLater(m: Mail, events: seq<Event>, node: NodeKey, j: nat)
    requires events != [] && TakesBack(Next(m, events[0]), events[1..], node, j)
    ensures TakesBack(m, events, node, j + 1)
  {
    assert events[..j+1][0] == events[0] && events[..j+1][1..] == events[1..][..j];
  }

  lemma {:induction false} RunKeepsMessage(m: Mail, events: seq<Event>, name: string, x: Message)
    requires x in BoxAt(m.buffer, name).messages
    ensures x in BoxAt(Run(m, events).buffer, name).messages || Matched(Run(m, events), name, x.number)
            || exists j: nat :: TakesBack(m, events, x.node, j)
    decreases |events|
  {
    if events != [] {
      var t := Next(m, events[0]);
      NextKeepsMessage(m, events[0], name, x);
      RunKeepsMatches(t, events[1..], name);
      if x in BoxAt(t.buffer, name).messages {
        RunKeepsMessage(t, events[1..], name, x);
        if j: nat :| TakesBack(t, events[1..], x.node, j) {
          TakesBackLater(m, events, x.node, j);
        }
      } else if !Matched(t, name, x.number) {
        assert events[..0] == [] && [events[0]][..0] == [];
        assert TakesBack(m, events, x.node, 0);
      }
    }
  }

  /**
   Whatever happens after a send, its message is buffered under its name, or was given to a waiter, or its node's sends
   have been taken back.
   */
  lemma SentIsAccountedFor(m: Mail, events: seq<Event>, name: string, node: NodeKey)
    requires events != [] && events[0] == Send(name, node)
    ensures var t, number := Run(m, events), m.buffer.sent;
      || Message(node, number) in BoxAt(t.buffer, name).messages || Matched(t, name, number)
      || exists j: nat :: TakesBack(m, events, node, j)
  {
    var t, box, x := Next(m, events[0]), BoxAt(m.buffer, name), Message(node, m.buffer.sent);
    RunKeepsMatches(t, events[1..], name);
    if box.waiters != [] {
      assert BoxAt(t.buffer, name).served[|box.served|] == Match(x.number, box.waiters[0]);
    } else {
      assert BoxAt(t.buffer, name).messages[|box.messages|] == x;
      RunKeepsMessage(t, events[1..], name, x);
      if j: nat :| TakesBack(t, events[1..], node, j) {
        TakesBackLater(m, events, node, j);
      }
    }
  }

  lemma {:induction false} WithoutKeeps(queue: seq<nat>, channel: nat, c: nat)
    requires c in queue && c != channel
    ensures c in Without(queue, channel)
  {
    if queue[0] != c {
      assert c in queue[1..];
      if queue[0] != channel {
        WithoutKeeps(queue[1..], channel, c);
      }
    }
  }

  lemma NextKeepsWaiter(m: Mail, e: Event, name: string, channel: nat)
    requires channel in BoxAt(m.buffer, name).waiters
    ensures channel in BoxAt(Next(m, e).buffer, name).waiters || Served(Next(m, e), name, channel) || e == Cancel(name, channel)
  {
    var box, t := BoxAt(m.buffer, name), Next(m, e);
    match e
    case Send(n, node) =>
      if n == name && channel == box.waiters[0] {
        assert BoxAt(t.buffer, name).served[|box.served|] == Match(m.buffer.sent, channel);
      } else if n == name {
        assert channel in box.waiters[1..];
      }
    case Cancel(n, c) =>
      if n == name && c != channel {
        WithoutKeeps(box.waiters, c, channel);
      }
    case Rewind(target) => ResetBox(m.buffer, m.stack[CutAt(m.stack, target)..], name);
    case Forget(node) => ResetBox(m.buffer, [node], name);
    case _ =>
  }

  lemma {:induction false} RunKeepsWaiter(m: Mail, events: seq<Event>, name: string, channel: nat)
    requires channel in BoxAt(m.buffer, name).waiters
    ensures channel in BoxAt(Run(m, events).buffer, name).waiters || Served(Run(m, events), name, channel)
            || Cancel(name, channel) in events
    decreases |events|
  {
    if events != [] {
      var t := Next(m, events[0]);
      NextKeepsWaiter(m, events[0], name, channel);
      RunKeepsMatches(t, events[1..], name);
      if channel in BoxAt(t.buffer, name).waiters {
        RunKeepsWaiter(t, events[1..], name, channel);
      }
    }
  }

  /** Whatever happens after a wait, its channel is still waiting under that name, has its message, or was cancelled. */
  lemma WaitIsAccountedFor(m: Mail, events: seq<Event>, name: string)
    requires events != [] && events[0] == Wait(name)
    ensures var t, channel := Run(m, events), m.buffer.asked;
      channel in BoxAt(t.buffer, name).waiters || Served(t, name, channel) || Cancel(name, channel) in events
  {
    var t, box, channel := Next(m, events[0]), BoxAt(m.buffer, name), m.buffer.asked;
    RunKeepsMatches(t, events[1..], name);
    if box.messages != [] {
      assert BoxAt(t.buffer, name).served[|box.served|] == Match(box.messages[0].number, channel);
    } else {
      assert BoxAt(t.buffer, name).waiters[|box.waiters|] == channel;
      RunKeepsWaiter(t, events[1..], name, channel);
    }
  }

  /** After a rewind, or once a node is forgotten, nothing that the nodes concerned sent is buffered under any name. */
  lemma TakenBackIsGone(m: Mail, e: Event, name: string, x: Message)
    requires TakesBack(m, [e], x.node, 0)
    ensures x !in BoxAt(Next(m, e).buffer, name).messages
  {
    assert [e][..0] == [] && Run(m, []) == m;
    var span := if e.Rewind? then m.stack[CutAt(m.stack, e.target)..] else [e.node];
    ResetBox(m.buffer, span, name);
    KeptIsSelected(BoxAt(m.buffer, name).messages, span);
  }

  /** The history grows by each send and each completed node, on top, and only a rewind shortens it. */
  lemma HistoryFollows(m: Mail, e: Event)
    ensures e.Send? || e.Complete? ==> Next(m, e).stack == m.stack + [e.node]
    ensures e.Rewind? && e.target in m.stack ==>
              exists i: nat :: i < |m.stack| && m.stack[i] == e.target && e.target !in m.stack[i+1..] && Next(m, e).stack == m.stack[..i]
    ensures e.Rewind? && e.target !in m.stack ==> Next(m, e).stack == []
    ensures !e.Send? && !e.Complete? && !e.Rewind? ==> Next(m, e).stack == m.stack
  {
    if e.Rewind? && e.target in m.stack {
      assert Next(m, e).stack == m.stack[..LastPlace(m.stack, e.target)];
    }
  }

  /** The channel is given nothing any more: it is not waiting and has had no message, and it is not a channel to come. */
  predicate OutOfTheQueue(m: Mail, name: string, channel: nat) {
    channel !in BoxAt(m.buffer, name).waiters && !Served(m, name, channel) && channel < m.buffer.asked
  }

  lemma {:induction false} WithoutLosesIt(queue: seq<nat>, channel: nat, bound: nat)
    requires WaitersIncrease(queue, bound)
    ensures channel !in Without(queue, channel)
  {
    if queue != [] {
      var tail := queue[1..];
      assert forall i | 0 <= i < |tail| :: tail[i] == queue[i+1];
      if queue[0] != channel {
        WithoutLosesIt(tail, channel, bound);
      }
    }
  }

  lemma NextKeepsItOut(m: Mail, e: Event, name: string, channel: nat)
    requires OutOfTheQueue(m, name, channel)
    ensures OutOfTheQueue(Next(m, e), name, channel)
  {
    var box := BoxAt(m.buffer, name);
    match e
    case Send(n, node) =>
      assert n == name && box.waiters != [] ==> box.waiters[0] != channel;
      ServedOneMore(m, Next(m, e), name, channel);
    case Wait(n) => ServedOneMore(m, Next(m, e), name, channel);
    case Cancel(n, c) => WithoutIsSelected(box.waiters, c);
    case Rewind(target) => ResetBox(m.buffer, m.stack[CutAt(m.stack, target)..], name);
    case Forget(node) => ResetBox(m.buffer, [node], name);
    case _ =>
  }

  /** One more match under the name, of another channel, leaves a channel unserved. */
  lemma ServedOneMore(m: Mail, t: Mail, name: string, channel: nat)
    requires !Served(m, name, channel)
    requires var past, now := BoxAt(m.buffer, name).served, BoxAt(t.buffer, name).served;
             now == past || (|now| == |past| + 1 && now[..|past|] == past && now[|past|].channel != channel)
    ensures !Served(t, name, channel)
  {
    var past, now := BoxAt(m.buffer, name).served, BoxAt(t.buffer, name).served;
    forall x | x in now ensures x.channel != channel {
      var i :| 0 <= i < |now| && now[i] == x;
      assert i < |past| ==> past[i] == now[i] && past[i] in past;
    }
  }

  lemma {:induction false} RunKeepsItOut(m: Mail, events: seq<Event>, name: string, channel: nat)
    requires OutOfTheQueue(m, name, channel)
    ensures OutOfTheQueue(Run(m, events), name, channel)
    decreases |events|
  {
    if events != [] {
      NextKeepsItOut(m, events[0], name, channel);
      RunKeepsItOut(Next(m, events[0]), events[1..], name, channel);
    }
  }

  /** A wait cancelled while it is still queued takes no message, whatever is sent later. */
  lemma CancelledGetsNothing(m: Mail, events: seq<Event>, name: string, channel: nat)
    requires BufferInv(m.buffer) && channel in BoxAt(m.buffer, name).waiters
    ensures !Served(Run(Next(m, Cancel(name, channel)), events), name, channel)
  {
    var box, t := BoxAt(m.buffer, name), Next(m, Cancel(name, channel));
    assert BoxInv(box, m.buffer.sent, m.buffer.asked);
    WithoutLosesIt(box.waiters, channel, m.buffer.asked);
    assert box.waiters[0] <= channel;
    assert !Served(t, name, channel);
    RunKeepsItOut(t, events, name, channel);
  }

  // ----- the buffer itself -----

  function NodesOf(messages: seq<Message>): (nodes: seq<NodeKey>)
    ensures |nodes| == |messages|
  {
    seq(|messages|, i requires 0 <= i < |messages| => messages[i].node)
  }

  function At<T>(m: map<string, seq<T>>, name: string): seq<T> {
    if name in m then m[name] else []
  }

  function KeptNodes(entries: seq<NodeKey>, span: set<NodeKey>): seq<NodeKey> {
    if entries == [] then []
    else (if entries[0] in span then [] else [entries[0]]) + KeptNodes(entries[1..], span)
  }

  lemma {:induction false} KeptNodesOf(messages: seq<Message>, span: seq<NodeKey>)
    ensures KeptNodes(NodesOf(messages), set n | n in span) == NodesOf(Kept(messages, span))
  {
    if messages != [] {
      KeptNodesOf(messages[1..], span);
      assert NodesOf(messages)[0] == messages[0].node && NodesOf(messages)[1..] == NodesOf(messages[1..]);
      if messages[0].node !in span {
        assert NodesOf([messages[0]] + Kept(messages[1..], span)) == [messages[0].node] + NodesOf(Kept(messages[1..], span));
      }
    }
  }

  lemma {:induction false} KeptNodesAppend(a: seq<NodeKey>, x: NodeKey, span: set<NodeKey>)
    ensures KeptNodes(a + [x], span) == KeptNodes(a, span) + if x in span then [] else [x]
  {
    if a == [] {
      assert a + [x] == [x] && [x][1..] == [];
    } else {
      KeptNodesAppend(a[1..], x, span);
      assert (a + [x])[1..] == a[1..] + [x];
    }
  }

  lemma {:induction false} WithoutAt(queue: seq<nat>, channel: nat, i: nat)
    requires i <= |queue| && channel !in queue[..i] && (i < |queue| ==> queue[i] == channel)
    ensures Without(queue, channel) == if i < |queue| then queue[..i] + queue[i+1..] else queue
  {
    if i > 0 {
      assert queue[0] == queue[..i][0];
      assert queue[1..][..i-1] == queue[..i][1..];
      WithoutAt(queue[1..], channel, i - 1);
      assert queue == [queue[0]] + queue[1..];
    }
  }

  method KeepOutside(entries: seq<NodeKey>, span: set<NodeKey>) returns (kept: seq<NodeKey>)
    ensures kept == KeptNodes(entries, span)
  {
    kept := [];
    var i := 0;
    while i < |entries|
      invariant i <= |entries|
      invariant kept == KeptNodes(entries[..i], span)
    {
      assert entries[..i+1] == entries[..i] + [entries[i]];
      KeptNodesAppend(entries[..i], entries[i], span);
      if entries[i] !in span {
        kept := kept + [entries[i]];
      }
      i := i + 1;
    }
    assert entries[..i] == entries;
  }

  /** The two maps the source keeps; channels are named by number, and `channels` is what each holds. */
  class MessageBuffer {
    var buf: map<string, seq<NodeKey>>
    var blocked: map<string, seq<nat>>
    var channels: map<nat, NodeKey>
    var nextChannel: nat
    ghost var model: Buffer

    ghost predicate Valid()
      reads this
    {
      && nextChannel == model.asked
      && forall name :: Matches(name)
    }

    ghost predicate Matches(name: string)
      reads this
    {
      At(buf, name) == NodesOf(BoxAt(model, name).messages) && At(blocked, name) == BoxAt(model, name).waiters
    }

    constructor ()
      ensures Valid() && model == EMPTY
    {
      buf, blocked, channels, nextChannel := map[], map[], map[], 0;
      model := EMPTY;
    }

    method Send(name: string, node: NodeKey)
      requires Valid()
      modifies this
      ensures Valid() && model == SendMessage(old(model), name, node)
      ensures var queue := BoxAt(old(model), name).waiters;
              channels == if queue != [] then old(channels)[queue[0] := node] else old(channels)
    {
      ghost var before := BoxAt(model, name).messages;
      assert Matches(name);
      var queue := if name in blocked then blocked[name] else [];
      model := SendMessage(model, name, node);
      if |queue| > 0 {
        channels := channels[queue[0] := node];
        blocked := blocked[name := queue[1..]];
      } else {
        assert NodesOf(before + [Message(node, model.sent - 1)]) == NodesOf(before) + [node];
        buf := buf[name := (if name in buf then buf[name] else []) + [node]];
      }
      forall n ensures Matches(n) {
        assert n == name || old(Matches(n));
      }
    }

    /** A new channel: already holding the first buffered message, or queued behind the other waiters. */
    method WaitChannel(name: string) returns (channel: nat)
      requires Valid()
      modifies this
      ensures Valid() && model == WaitFor(old(model), name)
      ensures channel == old(model).asked
      ensures var entries := BoxAt(old(model), name).messages;
              channels == if entries != [] then old(channels)[channel := entries[0].node] else old(channels)
    {
      ghost var before := BoxAt(model, name).messages;
      assert Matches(name);
      var entries := if name in buf then buf[name] else [];
      channel := nextChannel;
      nextChannel := nextChannel + 1;
      model := WaitFor(model, name);
      if |entries| > 0 {
        assert entries[0] == before[0].node && entries[1..] == NodesOf(before[1..]);
        buf := buf[name := entries[1..]];
        channels := channels[channel := entries[0]];
      } else {
        blocked := blocked[name := (if name in blocked then blocked[name] else []) + [channel]];
      }
      forall n ensures Matches(n) {
        assert n == name || old(Matches(n));
      }
    }

    /** Leaves the queue; a channel no longer in it is left as it is. */
    method CancelWaiting(name: string, channel: nat)
      requires Valid()
      modifies this
      ensures Valid() && model == CancelWait(old(model), name, channel) && channels == old(channels)
    {
      assert Matches(name);
      var queue := if name in blocked then blocked[name] else [];
      var i := 0;
      while i < |queue| && queue[i] != channel
        invariant i <= |queue|
        invariant channel !in queue[..i]
      {
        i := i + 1;
      }
      if i < |queue| {
        blocked := blocked[name := queue[..i] + queue[i+1..]];
      }
      WithoutAt(queue, channel, i);
      model := CancelWait(model, name, channel);
      forall n ensures Matches(n) {
        assert n == name || old(Matches(n));
      }
    }

    /** Drops the unconsumed messages of the nodes in `span`, name by name. */
    method ResetSpan(span: seq<NodeKey>)
      requires Valid()
      modifies this
      ensures Valid() && channels == old(channels)
      ensures span != [] ==> model == Reset(old(model), span)
      ensures span == [] ==> model == old(model)
    {
      if |span| == 0 {
        return;
      }
      var inSpan := set n | n in span;
      var names := buf.Keys;
      while names != {}
        invariant names <= buf.Keys && buf.Keys == old(buf).Keys
        invariant blocked == old(blocked) && channels == old(channels) && nextChannel == old(nextChannel) && model == old(model)
        invariant forall n | n in buf :: buf[n] == if n in names then old(buf)[n] else KeptNodes(old(buf)[n], inSpan)
      {
        var name :| name in names;
        var kept := KeepOutside(buf[name], inSpan);
        assert name in buf.Keys;
        buf := buf[name := kept];
        names := names - {name};
      }
      model := Reset(model, span);
      forall n ensures Matches(n) {
        assert old(Matches(n));
        KeptNodesOf(BoxAt(old(model), n).messages, span);
      }
    }
  }
}
