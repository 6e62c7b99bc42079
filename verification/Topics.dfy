/** The topic table as the code has it: a hash table of topics, each with its list of subscribers and
    its log of messages, all linked and updated in place (src/mqtt_message.c). */
module Topics {
  import opened Strings
  import opened Wrappers
  import opened SubscriberSpec
  import opened Subscribers
  import opened HashTable
  import PubSub

  class LogNode {
    const content: seq<byte>
    var next: LogNode?
    ghost const owner: Topic

    constructor (content: seq<byte>, ghost owner: Topic)
      ensures this.content == content && next == null && this.owner == owner
    {
      this.content, this.next, this.owner := content, null, owner;
    }
  }

  ghost function Contents(ns: seq<LogNode>): (cs: seq<seq<byte>>)
    ensures |cs| == |ns|
  {
    if ns == [] then [] else Contents(ns[..|ns| - 1]) + [ns[|ns| - 1].content]
  }

  /** `struct mqtt_topic`. */
  class Topic {
    const name: seq<byte>
    const subs: SubscriberList
    var head: LogNode?
    var tail: LogNode?
    ghost var nodes: seq<LogNode>

    ghost predicate LogLinked()
      reads this, nodes
    {
      && (forall n :: n in nodes ==> n.owner == this)
      && (if nodes == [] then head == null && tail == null else head == nodes[0] && tail == nodes[|nodes| - 1])
      && (forall i {:trigger nodes[i].next} :: 0 <= i < |nodes| ==>
            nodes[i].next == if i + 1 < |nodes| then nodes[i + 1] else null)
      && (forall i, j :: 0 <= i < j < |nodes| ==> nodes[i] != nodes[j])
    }

    ghost predicate Valid()
      reads this, nodes, subs, subs.nodes, subs.tail
    {
      LogLinked() && subs.Valid() && subs.name == name
    }

    ghost function Footprint(): set<object>
      reads this, subs
    {
      var log: set<object> := set n: LogNode | n in nodes;
      log + {this} + subs.Footprint()
    }

    ghost function View(): PubSub.Topic
      reads this, subs
    {
      PubSub.Topic(subs.View(), Contents(nodes))
    }

    /** `mqtt_topic_init`. */
    constructor (name: seq<byte>, movesTail: bool)
      ensures Valid() && this.name == name && subs.movesTail == movesTail
      ensures View() == PubSub.Topic(Subs([], NoTail), []) && fresh(Footprint())
      ensures Owned() && forall o :: o in Footprint() ==> allocated(o)
    {
      this.name := name;
      subs := new SubscriberList(movesTail, name);
      head, tail, nodes := null, null, [];
    }

    /** The message list's part of `_mqtt_topic_add_msg`. */
    method AddToLog(content: seq<byte>)
      requires Valid()
      modifies Footprint()
      ensures Valid() && View() == PubSub.Topic(old(View()).subs, old(View()).log + [content])
      ensures Owned() && fresh(Footprint() - old(Footprint()))
    {
      hide SubscriberList.Valid, SubscriberList.View;
      Append(content);
    }

    method Append(content: seq<byte>)
      requires LogLinked()
      modifies this`head, this`tail, this`nodes, nodes`next
      ensures LogLinked() && Contents(nodes) == old(Contents(nodes)) + [content]
      ensures forall n :: n in nodes ==> n in old(nodes) || fresh(n)
    {
      var node := new LogNode(content, this);
      if head == null {
        head := node;
      } else {
        tail.next := node;
      }
      tail := node;
      nodes := nodes + [node];
      assert nodes[..|nodes| - 1] == old(nodes);
    }

    /** `mqtt_topic_sub`, once the client has been found. */
    method AddSubscriber(client: seq<byte>, qos: nat)
      requires Valid()
      modifies Footprint()
      ensures Valid() && View() == old(View()).(subs := Subscribe(old(View()).subs, Subscription(client, qos)))
      ensures Owned() && fresh(Footprint() - old(Footprint()))
    {
      subs.TopicSub(client, qos);
    }

    /** `mqtt_topic_unsub`, once the client has been found. */
    method DropSubscriber(client: seq<byte>) returns (status: Status)
      requires Valid()
      modifies Footprint()
      ensures status == if Unsubscribe(old(View()).subs, client, subs.movesTail).None? then NullDereference else Success
      ensures status == Success ==>
                && Valid() && Owned() && Footprint() <= old(Footprint())
                && View() == old(View()).(subs := Unsubscribe(old(View()).subs, client, subs.movesTail).value)
    {
      status := subs.TopicUnsub(client);
    }

    ghost predicate Owned()
      reads this, subs
    {
      this in Footprint() && subs in Footprint()
    }
  }

  /** Topics of different names share nothing. */
  lemma Apart(a: Topic, b: Topic)
    requires a.Valid() && b.Valid() && a.name != b.name
    ensures a.Footprint() !! b.Footprint()
  {
  }

  /** A topic none of whose objects has changed is as it was. */
  twostate lemma Same(t: Topic)
    requires old(t.Valid()) && unchanged(old(t.Footprint()))
    ensures t.Valid() && t.View() == old(t.View()) && t.Footprint() == old(t.Footprint())
  {
  }

  /** `topic_table`. */
  class TopicTable {
    const table: HashTable<Topic>
    /** Whether the subscriber lists move their tails; false in the code as written. */
    const movesTail: bool
    /** All objects of all topics. */
    ghost var repr: set<object>

    ghost predicate Valid()
      reads this, table, table.iterms, table.repr, repr
    {
      && table.Valid()
      && table !in repr && table.iterms !in repr && this !in repr
      && table.repr !! repr
      && forall n :: n in table.contents ==> Holds(n, table.contents[n])
    }

    ghost predicate Holds(n: seq<byte>, t: Topic)
      reads this, repr
    {
      && t in repr && t.subs in repr && t.Footprint() <= repr
      && t.name == n && t.subs.movesTail == movesTail && t.Valid()
    }

    ghost function View(): map<seq<byte>, PubSub.Topic>
      reads this, table, table.iterms, table.repr, repr
      requires Valid()
    {
      map n | n in table.contents :: table.contents[n].View()
    }

    constructor (movesTail: bool)
      ensures Valid() && View() == map[] && this.movesTail == movesTail
    {
      table := new HashTable<Topic>();
      this.movesTail := movesTail;
      repr := {};
    }

    lemma InTable(name: seq<byte>)
      requires Valid()
      ensures table.Valid()
      ensures name in table.contents ==> table.contents[name].name == name && table.contents[name].Footprint() <= repr
    {
      assert name in table.contents ==> Holds(name, table.contents[name]);
    }

    lemma Present(name: seq<byte>)
      requires Valid() && name in table.contents
      ensures View() == View()[name := PubSub.TopicIn(View(), name)]
    {
    }

    /** `mqtt_topic_get`. */
    method Lookup(name: seq<byte>) returns (t: Topic?)
      requires Valid() && |name| <= MAX_KEY
      ensures t == null <==> name !in table.contents
      ensures t != null ==> t == table.contents[name] && t.name == name && t.Footprint() <= repr
    {
      InTable(name);
      hide *;
      var found := table.Get(name);
      t := if found.Some? then found.value else null;
    }

    /** `mqtt_topic_get` and, if there is no such topic, `mqtt_topic_add`. */
    method GetOrAdd(name: seq<byte>) returns (t: Topic)
      requires Valid() && |name| <= MAX_KEY
      modifies this`repr, table`chains, table`repr, table`contents, table.iterms, table.repr
      ensures Valid() && name in table.contents && t == table.contents[name] && t.name == name
      ensures t.Footprint() <= repr && fresh(repr - old(repr))
      ensures View() == old(View())[name := PubSub.TopicIn(old(View()), name)]
    {
      hide *;
      var found := Lookup(name);
      if found != null {
        Present(name);
        t := found;
      } else {
        Missing(name);
        t := Add(name);
      }
    }

    lemma Missing(name: seq<byte>)
      requires Valid() && name !in table.contents
      ensures PubSub.TopicIn(View(), name) == PubSub.Topic(Subs([], NoTail), [])
    {
    }

    /** `mqtt_topic_add` of a new name. */
    method Add(name: seq<byte>) returns (t: Topic)
      requires Valid() && |name| <= MAX_KEY && name !in table.contents
      modifies this`repr, table`chains, table`repr, table`contents, table.iterms, table.repr
      ensures Valid() && table.contents == old(table.contents)[name := t] && t.name == name
      ensures t.Footprint() <= repr && fresh(repr - old(repr))
      ensures View() == old(View())[name := PubSub.Topic(Subs([], NoTail), [])]
    {
      InTable(name);
      hide *;
      t := new Topic(name, movesTail);
      ghost var added := t.Footprint();
      assert added !! table.repr && table !in added && table.iterms !in added && this !in added;
      label made:
      table.Set(name, t);
      Same@made(t);
      OwnedStill@made(t);
      assert added !! table.repr;
      repr := repr + added;
      OneAdded(t);
    }

    twostate lemma OwnedStill(t: Topic)
      requires old(t.Owned()) && unchanged(old(t.Footprint()))
      ensures t.Owned()
    {
    }

    /** A topic added to the table changes nothing else. */
    twostate lemma OneAdded(new t: Topic)
      requires old(Valid()) && t.name !in old(table.contents)
      requires table.Valid() && table.contents == old(table.contents)[t.name := t]
      requires old(table.repr) <= table.repr && fresh(table.repr - old(table.repr))
      requires unchanged(old(repr)) && repr == old(repr) + t.Footprint()
      requires t.Valid() && t.Owned() && t.subs.movesTail == movesTail
      requires t.Footprint() !! table.repr
      requires table !in t.Footprint() && table.iterms !in t.Footprint() && this !in t.Footprint()
      ensures Valid() && View() == old(View())[t.name := t.View()]
    {
      hide Topic.Valid, HashTable.Valid, Topic.View, Topic.Footprint;
      forall n | n in old(table.contents)
        ensures Holds(n, table.contents[n]) && table.contents[n].View() == old(table.contents[n].View())
      {
        assert old(Holds(n, table.contents[n]));
        Same(table.contents[n]);
      }
    }

    /** Another topic shares nothing with this one. */
    lemma OthersApart(t: Topic)
      requires Valid() && t.name in table.contents && table.contents[t.name] == t
      ensures forall n :: n in table.contents && n != t.name ==> table.contents[n].Footprint() !! t.Footprint()
    {
      forall n | n in table.contents && n != t.name
        ensures table.contents[n].Footprint() !! t.Footprint()
      {
        assert Holds(n, table.contents[n]) && Holds(t.name, t);
        Apart(table.contents[n], t);
      }
    }

    /** An operation on one topic changes nothing else. */
    twostate lemma OneChanged(t: Topic)
      requires old(Valid()) && t.name in old(table.contents) && old(table.contents)[t.name] == t
      requires unchanged(table) && unchanged(table.iterms) && unchanged(table.repr)
      requires repr == old(repr) + t.Footprint() && fresh(t.Footprint() - old(t.Footprint()))
      requires forall n :: n in table.contents && n != t.name ==> old(table.contents[n].Footprint() !! t.Footprint())
      requires forall o :: o in old(repr) && o !in old(t.Footprint()) ==> unchanged(o)
      requires t.Valid() && t.Owned()
      ensures Valid() && View() == old(View())[t.name := t.View()]
    {
      hide Topic.Valid, Topic.Footprint, Topic.View;
      forall n | n in table.contents && n != t.name
        ensures Holds(n, table.contents[n]) && table.contents[n].View() == old(table.contents[n].View())
      {
        assert old(Holds(n, table.contents[n]));
        Same(table.contents[n]);
      }
    }

    /** One round of `mqtt_parse_subtopices`: the topic is created if need be, then `mqtt_topic_sub`. */
    method TopicSub(name: seq<byte>, client: seq<byte>, qos: nat)
      requires Valid() && |name| <= MAX_KEY
      modifies this`repr, table`chains, table`repr, table`contents, table.iterms, table.repr, repr
      ensures Valid()
      ensures View() == old(View())[name :=
                var topic := PubSub.TopicIn(old(View()), name);
                topic.(subs := Subscribe(topic.subs, Subscription(client, qos)))]
    {
      ghost var was, topic := View(), PubSub.TopicIn(View(), name);
      Twice(was, name, topic, topic.(subs := Subscribe(topic.subs, Subscription(client, qos))));
      hide *;
      var t := GetOrAdd(name);
      Subscribed(t, client, qos);
    }

    method Subscribed(t: Topic, client: seq<byte>, qos: nat)
      requires Valid() && t.name in table.contents && table.contents[t.name] == t
      modifies this`repr, t.Footprint()
      ensures Valid() && t.name in old(View())
      ensures View() == var topic := old(View())[t.name];
                        old(View())[t.name := topic.(subs := Subscribe(topic.subs, Subscription(client, qos)))]
    {
      OthersApart(t);
      assert Holds(t.name, t);
      hide Topic.Valid, Topic.Footprint, Topic.View, HashTable.Valid;
      t.AddSubscriber(client, qos);
      repr := repr + t.Footprint();
      OneChanged(t);
    }

    /** The message list's part of `_mqtt_topic_add_msg`, after the lookup in `mqtt_handler_publish`. */
    method LogMessage(name: seq<byte>, content: seq<byte>)
      requires Valid() && |name| <= MAX_KEY
      modifies this`repr, table`chains, table`repr, table`contents, table.iterms, table.repr, repr
      ensures Valid()
      ensures View() == old(View())[name :=
                var topic := PubSub.TopicIn(old(View()), name);
                topic.(log := topic.log + [content])]
    {
      ghost var was, topic := View(), PubSub.TopicIn(View(), name);
      Twice(was, name, topic, topic.(log := topic.log + [content]));
      hide *;
      var t := GetOrAdd(name);
      Logged(t, content);
    }

    method Logged(t: Topic, content: seq<byte>)
      requires Valid() && t.name in table.contents && table.contents[t.name] == t
      modifies this`repr, t.Footprint()
      ensures Valid() && t.name in old(View())
      ensures View() == var topic := old(View())[t.name]; old(View())[t.name := topic.(log := topic.log + [content])]
    {
      OthersApart(t);
      assert Holds(t.name, t);
      hide Topic.Valid, Topic.Footprint, Topic.View, HashTable.Valid;
      t.AddToLog(content);
      repr := repr + t.Footprint();
      OneChanged(t);
    }

    /** One round of `mqtt_parse_unsubtopices`. */
    method TopicUnsub(name: seq<byte>, client: seq<byte>) returns (status: Status)
      requires Valid() && |name| <= MAX_KEY
      modifies this`repr, repr
      ensures match PubSub.WithoutClient(old(View()), name, client, movesTail)
              case None => status == NullDereference
              case Some(topics) => status == Success && Valid() && View() == topics
    {
      hide *;
      var found := Lookup(name);
      if found == null {
        Absent(name, client);
        return Success;
      }
      Found(name, client);
      status := Unsubscribed(found, client);
    }

    lemma Found(name: seq<byte>, client: seq<byte>)
      requires Valid() && name in table.contents
      ensures PubSub.WithoutClient(View(), name, client, movesTail) ==
              var topic := View()[name];
              match Unsubscribe(topic.subs, client, movesTail)
              case None => None
              case Some(subs) => Some(View()[name := topic.(subs := subs)])
    {
      hide Unsubscribe;
    }

    lemma Absent(name: seq<byte>, client: seq<byte>)
      requires Valid() && name !in table.contents
      ensures PubSub.WithoutClient(View(), name, client, movesTail) == Some(View())
    {
    }

    method Unsubscribed(t: Topic, client: seq<byte>) returns (status: Status)
      requires Valid() && t.name in table.contents && table.contents[t.name] == t
      modifies this`repr, t.Footprint()
      ensures t.name in old(View())
      ensures var topic := old(View())[t.name];
              match Unsubscribe(topic.subs, client, movesTail)
              case None => status == NullDereference
              case Some(subs) => status == Success && Valid() && View() == old(View())[t.name := topic.(subs := subs)]
    {
      OthersApart(t);
      assert Holds(t.name, t);
      hide Topic.Valid, Topic.Footprint, Topic.View, HashTable.Valid, Unsubscribe;
      status := t.DropSubscriber(client);
      if status == Success {
        repr := repr + t.Footprint();
        OneChanged(t);
      }
    }
  }

  lemma Twice<K, V>(m: map<K, V>, k: K, a: V, b: V)
    ensures m[k := a][k] == a && m[k := a][k := b] == m[k := b]
  {
  }
}
