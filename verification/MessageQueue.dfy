/** The Head/Tail linked queue of events. A message that was taken is deleted after its
    callback; `live` marks the messages that may still be dereferenced. */
module MessageQueueClass {
  import EventLoop
  import EventHistory

  class Message {
    const event: nat
    var next: Message?
    ghost var live: bool

    constructor (event: nat)
      ensures this.event == event && next == null && live
    {
      this.event := event;
      next := null;
      live := true;
    }

    method SetNext(m: Message)
      requires live
      modifies this`next
      ensures next == m
    {
      next := m;
    }

    method GetNext() returns (m: Message?)
      requires live
      ensures m == next
    {
      m := next;
    }

    ghost method Delete()
      requires live
      modifies this`live
      ensures !live
    {
      live := false;
    }
  }

  ghost function EventsOf(nodes: seq<Message>): seq<nat> { seq(|nodes|, i requires 0 <= i < |nodes| => nodes[i].event) }

  ghost function Successor(nodes: seq<Message>, i: nat): Message?
    requires i < |nodes|
  {
    if i + 1 < |nodes| then nodes[i + 1] else null
  }

  class MessageQueue {
    var head: Message?
    var tail: Message?
    ghost var nodes: seq<Message>

    /** `tail` is unconstrained while the queue is empty: it may name a deleted message. */
    ghost predicate Valid()
      reads this, nodes
    {
      && (nodes == [] <==> head == null)
      && (nodes != [] ==> head == nodes[0] && tail == nodes[|nodes| - 1])
      && (forall i | 0 <= i < |nodes| :: nodes[i].live)
      && (forall i {:trigger nodes[i].next} | 0 <= i < |nodes| :: nodes[i].next == Successor(nodes, i))
      && (forall i, j | 0 <= i < j < |nodes| :: nodes[i] != nodes[j])
    }

    constructor ()
      ensures Valid() && nodes == []
    {
      head, tail, nodes := null, null, [];
    }

    method Enqueue(item: Message)
      requires Valid() && item.live && item.next == null && item !in nodes
      modifies this, nodes
      ensures Valid() && nodes == old(nodes) + [item]
      ensures EventsOf(nodes) == old(EventsOf(nodes)) + [item.event]
      ensures forall m | m in old(nodes) :: m.live
    {
      if head == null {
        tail := item;
        head := item;
      } else {
        if tail == null {
          assert false;
        } else {
          tail.SetNext(item);
        }
        tail := item;
      }
      nodes := nodes + [item];
    }

    method Dequeue() returns (item: Message?)
      requires Valid()
      modifies this
      ensures Valid() && tail == old(tail)
      ensures item == null <==> old(nodes) == []
      ensures item == null ==> nodes == []
      ensures item != null ==> item == old(nodes)[0] && item.live && nodes == old(nodes)[1..] && item !in nodes
      ensures item != null ==> old(EventsOf(nodes)) == [item.event] + EventsOf(nodes)
    {
      if head == null { return null; }
      item := head;
      head := head.GetNext();
      nodes := nodes[1..];
      assert forall i | 0 <= i < |nodes| :: nodes[i] == old(nodes)[i + 1];
    }
  }

  ghost predicate Apart(a: seq<Message>, b: seq<Message>) {
    forall i, j | 0 <= i < |a| && 0 <= j < |b| :: a[i] != b[j]
  }

  /** Appending a new message to one queue leaves the other one alone. */
  method EnqueueBeside(q: MessageQueue, other: MessageQueue, event: nat)
    requires q != other && q.Valid() && other.Valid() && Apart(q.nodes, other.nodes)
    modifies q, q.nodes
    ensures q.Valid() && other.Valid() && other.nodes == old(other.nodes) && Apart(q.nodes, other.nodes)
    ensures EventsOf(q.nodes) == old(EventsOf(q.nodes)) + [event]
    ensures |q.nodes| == |old(q.nodes)| + 1 && q.nodes[..|old(q.nodes)|] == old(q.nodes) && fresh(q.nodes[|old(q.nodes)|])
  {
    var item := new Message(event);
    q.Enqueue(item);
  }

  /** The queues together with the events posted to and taken from each of them. */
  class EventBus {
    const internal: MessageQueue
    const external: MessageQueue
    ghost var book: EventLoop.World

    ghost predicate Valid()
      reads this, internal, external, internal.nodes, external.nodes
    {
      && internal != external && internal.Valid() && external.Valid()
      && Apart(internal.nodes, external.nodes)
      && book.internal.waiting == EventsOf(internal.nodes)
      && book.external.waiting == EventsOf(external.nodes)
    }

    ghost function Nodes(): set<Message>
      reads this, internal, external
    {
      (set m | m in internal.nodes) + (set m | m in external.nodes)
    }

    constructor ()
      ensures Valid() && book.internal == EventLoop.Queue([], [], []) && book.external == EventLoop.Queue([], [], [])
    {
      internal := new MessageQueue();
      external := new MessageQueue();
      book := EventLoop.World(EventLoop.Queue([], [], []), EventLoop.Queue([], [], []), EventLoop.Free, EventLoop.AtLock, []);
    }

    /** The critical section of PostEvt. */
    method PostEvt(event: nat)
      requires Valid()
      modifies this, internal, external, Nodes()
      ensures Valid()
      ensures book == old(Posted(book, event))
      ensures fresh(Nodes() - old(Nodes()))
    {
      if event < EventLoop.EXTERNAL_EVENT_MAX {
        EnqueueBeside(external, internal, event);
        book := book.(external := EventLoop.Append(book.external, event));
      } else {
        EnqueueBeside(internal, external, event);
        book := book.(internal := EventLoop.Append(book.internal, event));
      }
    }

    /** The critical section of Process: the internal queue first, then the external one. */
    method TakeNext() returns (item: Message?)
      requires Valid()
      modifies this, internal, external
      ensures Valid()
      ensures item == null ==> book == old(book) && book.internal.waiting == [] && book.external.waiting == []
      ensures item != null ==> item.live && item !in Nodes()
      ensures item != null ==> old(book.internal.waiting != [] || book.external.waiting != []) && book == old(TakeFirst(book))
      ensures item != null ==> item.event == old(if book.internal.waiting != [] then book.internal.waiting[0] else book.external.waiting[0])
      ensures Nodes() <= old(Nodes()) && (item != null ==> item in old(Nodes()))
    {
      item := internal.Dequeue();
      if item == null {
        item := external.Dequeue();
        if item != null {
          book := book.(external := EventLoop.Take(book.external));
        }
      } else {
        book := book.(internal := EventLoop.Take(book.internal));
      }
    }

    /** A callback that posts `posts` while its own message is still allocated. */
    method RunCallback(item: Message, posts: seq<nat>)
      requires Valid() && item.live && item !in Nodes()
      modifies this, internal, external, Nodes()
      ensures Valid() && item.live && item !in Nodes()
      ensures book == PostAll(old(book), posts)
      decreases |posts|
    {
      if posts != [] {
        PostEvt(posts[0]);
        RunCallback(item, posts[1..]);
      }
    }

    /** One round of Process that finds a message: take it, run its callback, delete it.
        Deleting the last message leaves `tail` naming it. */
    method ProcessOne(posts: seq<nat>) returns (item: Message?)
      requires Valid() && (book.internal.waiting != [] || book.external.waiting != [])
      modifies this, internal, external, Nodes()
      ensures Valid() && item != null && !item.live
      ensures book == PostAll(old(TakeFirst(book)), posts)
    {
      item := TakeNext();
      RunCallback(item, posts);
      item.Delete();
    }
  }

  ghost function Posted(b: EventLoop.World, e: nat): EventLoop.World {
    if e < EventLoop.EXTERNAL_EVENT_MAX then b.(external := EventLoop.Append(b.external, e))
    else b.(internal := EventLoop.Append(b.internal, e))
  }

  /** Urgent events go to the back of the internal queue, all others to that of the external one. */
  lemma PostedKind(b: EventLoop.World, e: nat)
    ensures var q := Posted(b, e);
      if EventHistory.Urgent(e)
      then q.external == b.external && q.internal.waiting == b.internal.waiting + [e] && q.internal.posted == b.internal.posted + [e]
      else q.internal == b.internal && q.external.waiting == b.external.waiting + [e] && q.external.posted == b.external.posted + [e]
  {
  }

  ghost function PostAll(b: EventLoop.World, posts: seq<nat>): EventLoop.World
    decreases |posts|
  {
    if posts == [] then b else PostAll(Posted(b, posts[0]), posts[1..])
  }

  ghost function TakeFirst(b: EventLoop.World): EventLoop.World
    requires b.internal.waiting != [] || b.external.waiting != []
  {
    if b.internal.waiting != [] then b.(internal := EventLoop.Take(b.internal)) else b.(external := EventLoop.Take(b.external))
  }
}
