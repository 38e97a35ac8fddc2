/** How the two scripts fit together: the sender publishes a file on
    `<FILE_TOPIC_BASE>/<name>` and waits for `ACK` on `<ACK_TOPIC_BASE>/<name>`;
    the receiver parses the first topic and answers on the second. These
    lemmas connect the publisher's topics and ACK filter with the subscriber's
    parser and ACK topic. */
module Handshake {
  import opened Common
  import PyStr
  import PyPath
  import Subscriber
  import Publisher

  /** Both sides use the same `/`-free base topics. */
  predicate Agree(pub: Publisher.Config, sub: Subscriber.Config)
  {
    pub.fileTopicBase == sub.fileTopicBase && '/' !in pub.fileTopicBase &&
    pub.ackTopicBase == sub.ackTopicBase && '/' !in pub.ackTopicBase
  }

  /** The scripts' built-in settings agree. */
  lemma DefaultsAgree()
    ensures Agree(Publisher.Defaults, Subscriber.Defaults)
  {
  }

  /** The receiver reads back the name the sender put in the transfer topic. */
  lemma TransferTopicRoundTrip(pub: Publisher.Config, sub: Subscriber.Config, name: string)
    requires Agree(pub, sub)
    ensures Subscriber.ParseFileTopic(sub.fileTopicBase, Publisher.FileTopic(pub, name)) == Some(name)
  {
    Subscriber.ParseFileTopicSpec(sub.fileTopicBase, Publisher.FileTopic(pub, name), name);
  }

  /** A transfer on another `/`-free base is ignored by the receiver. */
  lemma ForeignTransferIgnored(pub: Publisher.Config, sub: Subscriber.Config, name: string)
    requires '/' !in pub.fileTopicBase && pub.fileTopicBase != sub.fileTopicBase
    ensures Subscriber.ParseFileTopic(sub.fileTopicBase, Publisher.FileTopic(pub, name)).None?
  {
    PyStr.SplitOnceAt(pub.fileTopicBase, '/', name);
  }

  /** The ACK the receiver publishes registers exactly the name it parsed,
      whatever QoS the broker delivers it with. */
  lemma AckRoundTrip(pub: Publisher.Config, sub: Subscriber.Config, name: string, f: string, qos: nat)
    requires Agree(pub, sub)
    ensures Publisher.AckedName(pub.ackTopicBase, Publisher.Message(Subscriber.AckTopic(sub, name), AckPayload, qos)) == Some(f)
      <==> f == name
  {
    var m := Publisher.Message(Subscriber.AckTopic(sub, name), AckPayload, qos);
    Publisher.AckedNameSpec(pub.ackTopicBase, m, f);
    if m.topic == pub.ackTopicBase + "/" + f {
      assert |f| == |name|;
      assert f == m.topic[|pub.ackTopicBase| + 1..] == name;
    }
  }

  /** A whole exchange: the file the sender publishes for `path` is accepted
      under its base name, and the receiver's ACK credits that very name at
      the sender. */
  lemma ExchangeCreditsSender(pub: Publisher.Config, sub: Subscriber.Config, path: string, qos: nat)
    requires Agree(pub, sub)
    ensures var name := PyPath.Name(path);
      var parsed := Subscriber.ParseFileTopic(sub.fileTopicBase, Publisher.FileTopic(pub, name));
      parsed == Some(name) &&
      Publisher.AckedName(pub.ackTopicBase, Publisher.Message(Subscriber.AckTopic(sub, parsed.value), AckPayload, qos)) == Some(name)
  {
    var name := PyPath.Name(path);
    TransferTopicRoundTrip(pub, sub, name);
    AckRoundTrip(pub, sub, name, name, qos);
  }

  /** With unique names off, the copy the receiver writes keeps the sender's
      base name, whatever the output directory. */
  lemma CopyKeepsName(files: set<string>, outDir: string, path: string, p: string)
    requires Subscriber.IsNextUniquePath(files, outDir, PyPath.Name(path), false, p)
    ensures PyPath.Name(p) == PyPath.Name(path)
  {
    PyPath.NameJoin(outDir, PyPath.Name(path));
  }
}
