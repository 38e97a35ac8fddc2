/** The sending side (`mqtt_publisher.py`): for each plan entry, publish the
    file `repeats` times, waiting after each publish for the subscriber's ACK
    under a deadline, and append one result row per repetition.

    Time is an integer clock in milliseconds. The MQTT client's network
    thread is reduced to explicit steps: whenever the sender waits (for the
    publish hand-off or one poll sleep) the clock advances and the messages
    the environment delivers in that step pass through the ACK handler. Which
    messages arrive in which step, and how long each hand-off takes, are
    inputs of the model. */
module Publisher {
  import opened Common
  import PyStr
  import PyPath

  /** The environment settings the script reads at start-up. */
  datatype Config = Config(
    qos: nat,                  // MQTT_QOS
    dataDir: string,           // DATA_DIR
    fileTopicBase: string,     // FILE_TOPIC_BASE
    ackTopicBase: string,      // ACK_TOPIC_BASE
    ackTimeout: nat)           // ACK_TIMEOUT_SEC, in milliseconds

  /** The settings the script uses when the environment sets none. */
  const Defaults := Config(1, "./DataFiles", "fileTransfer", "fileAck", 60000)

  /** One poll sleep, `time.sleep(0.002)`. */
  const PollTicks: nat := 2

  /** One experiment: a file of the data directory and how often to send it. */
  datatype PlanEntry = PlanEntry(file: string, repeats: int)

  /** `FILE_RUN_PLAN`. */
  const DefaultPlan := [PlanEntry("1MB", 10000), PlanEntry("10KB", 1000), PlanEntry("10MB", 100), PlanEntry("100B", 10)]

  /** An MQTT message, as published or as delivered to the handler. */
  datatype Message = Message(topic: string, payload: seq<byte>, qos: nat)

  /** One result row; `elapsed` is in clock ticks and `throughput` in bytes per tick. */
  datatype Row = Row(protocol: string, variant: string, fileName: string, fileSize: nat,
                     iteration: int, elapsed: int, throughput: real)

  /** A line of the results CSV. */
  datatype CsvLine = Header(columns: seq<string>) | Data(row: Row)

  const ResultColumns: seq<string> :=
    ["protocol", "variant", "file_name", "file_size_bytes", "iteration", "elapsed_sec", "throughput_Bps"]

  // ---------------------------------------------------------------- the ACK filter

  /** The file name an incoming message acknowledges: the text after the first
      `/` of a topic that starts with `<ackBase>/`, when the payload is `ACK`. */
  function AckedName(ackBase: string, m: Message): (r: Option<string>)
    ensures r.Some? ==> m.payload == AckPayload && PyStr.StartsWith(m.topic, ackBase + "/")
  {
    if PyStr.StartsWith(m.topic, ackBase + "/") && m.payload == AckPayload then
      assert m.topic[|ackBase|] == (ackBase + "/")[|ackBase|];
      Some(PyStr.SplitOnce(m.topic, '/')[1])
    else None
  }

  /** With a `/`-free base, a message registers `f` exactly when it is the ACK
      payload on topic `<ackBase>/<f>`. */
  lemma AckedNameSpec(ackBase: string, m: Message, f: string)
    requires '/' !in ackBase
    ensures AckedName(ackBase, m) == Some(f) <==> m.topic == ackBase + "/" + f && m.payload == AckPayload
  {
    if PyStr.StartsWith(m.topic, ackBase + "/") {
      var rest := m.topic[|ackBase| + 1..];
      assert m.topic == ackBase + "/" + rest;
      PyStr.SplitOnceAt(ackBase, '/', rest);
    }
    if m.topic == ackBase + "/" + f {
      assert m.topic[..|ackBase| + 1] == ackBase + "/";
      PyStr.SplitOnceAt(ackBase, '/', f);
    }
  }

  /** The names that a sequence of delivered messages registers. */
  function AckedNames(ackBase: string, msgs: seq<Message>): set<string>
  {
    if msgs == [] then {}
    else
      var last := match AckedName(ackBase, msgs[|msgs| - 1]) case Some(f) => {f} case None => {};
      AckedNames(ackBase, msgs[..|msgs| - 1]) + last
  }

  lemma {:induction false} AckedNamesAppend(ackBase: string, a: seq<Message>, b: seq<Message>)
    ensures AckedNames(ackBase, a + b) == AckedNames(ackBase, a) + AckedNames(ackBase, b)
  {
    if b == [] {
      assert a + b == a;
    } else {
      assert (a + b)[..|a + b| - 1] == a + b[..|b| - 1];
      AckedNamesAppend(ackBase, a, b[..|b| - 1]);
    }
  }

  /** A name is registered by a sequence exactly when one of its messages acknowledges it. */
  lemma {:induction false} AckedNamesMember(ackBase: string, msgs: seq<Message>, f: string)
    ensures f in AckedNames(ackBase, msgs) <==> exists k :: 0 <= k < |msgs| && AckedName(ackBase, msgs[k]) == Some(f)
  {
    if msgs != [] {
      var init := msgs[..|msgs| - 1];
      AckedNamesMember(ackBase, init, f);
      if f in AckedNames(ackBase, init) {
        var k :| 0 <= k < |init| && AckedName(ackBase, init[k]) == Some(f);
        assert msgs[k] == init[k];
      }
      if exists k :: 0 <= k < |msgs| && AckedName(ackBase, msgs[k]) == Some(f) {
        var k :| 0 <= k < |msgs| && AckedName(ackBase, msgs[k]) == Some(f);
        if k < |init| { assert init[k] == msgs[k]; }
      }
    }
  }

  // ---------------------------------------------------------------- rows

  /** `size / elapsed`, or 0 when no time has elapsed. */
  function Throughput(size: nat, elapsed: int): (r: real)
    ensures elapsed > 0 ==> r * (elapsed as real) == size as real
    ensures elapsed <= 0 ==> r == 0.0
    ensures r >= 0.0
  {
    if elapsed > 0 then size as real / elapsed as real else 0.0
  }

  /** `f"QoS{QOS}"`. */
  function Variant(cfg: Config): string
  {
    "QoS" + PyStr.IntToStr(cfg.qos)
  }

  /** `f"{FILE_TOPIC_BASE}/{filename}"`. */
  function FileTopic(cfg: Config, filename: string): string
  {
    cfg.fileTopicBase + "/" + filename
  }

  /** What identifies a result row: the file, its size, and the repetition index. */
  datatype RowKey = RowKey(fileName: string, fileSize: nat, iteration: nat)

  /** The rows of one file sent `n` times: indices 1..n in ascending order, none for `n <= 0`. */
  function EntryKeys(name: string, size: nat, n: int): (keys: seq<RowKey>)
    ensures |keys| == if n > 0 then n else 0
    ensures forall k :: 0 <= k < |keys| ==> keys[k] == RowKey(name, size, k + 1)
  {
    if n <= 0 then [] else EntryKeys(name, size, n - 1) + [RowKey(name, size, n)]
  }

  /** The rows of `send_file(path, n)`: none for a missing file. */
  function FileKeys(dataFiles: map<string, seq<byte>>, path: string, n: int): (r: seq<RowKey>)
    ensures path !in dataFiles ==> r == []
    ensures path in dataFiles ==> |r| == if n > 0 then n else 0
    ensures forall k :: 0 <= k < |r| ==>
      path in dataFiles && r[k] == RowKey(PyPath.Name(path), |dataFiles[path]|, k + 1)
  {
    if path in dataFiles then EntryKeys(PyPath.Name(path), |dataFiles[path]|, n) else []
  }

  /** `key` is one of the rows that plan entry `e` produces: its file exists
      and the index is one of its repetitions. */
  predicate PlanRow(cfg: Config, dataFiles: map<string, seq<byte>>, e: PlanEntry, key: RowKey)
  {
    var path := PyPath.Join(cfg.dataDir, e.file);
    path in dataFiles && key == RowKey(PyPath.Name(path), |dataFiles[path]|, key.iteration) &&
    1 <= key.iteration <= e.repeats
  }

  /** The rows of a whole plan, entry after entry. */
  function PlanKeys(cfg: Config, dataFiles: map<string, seq<byte>>, plan: seq<PlanEntry>): seq<RowKey>
  {
    if plan == [] then []
    else
      var e := plan[|plan| - 1];
      PlanKeys(cfg, dataFiles, plan[..|plan| - 1]) + FileKeys(dataFiles, PyPath.Join(cfg.dataDir, e.file), e.repeats)
  }

  /** `key` is a row that some entry of `plan` produces. */
  ghost predicate FromPlan(cfg: Config, dataFiles: map<string, seq<byte>>, plan: seq<PlanEntry>, key: RowKey)
  {
    exists e :: e in plan && PlanRow(cfg, dataFiles, e, key)
  }

  /** Every row of a plan belongs to one of its entries: the entry's file
      exists and the index is one of its repetitions. */
  lemma {:induction false} PlanKeysFromEntries(cfg: Config, dataFiles: map<string, seq<byte>>, plan: seq<PlanEntry>)
    ensures forall k :: 0 <= k < |PlanKeys(cfg, dataFiles, plan)| ==>
      FromPlan(cfg, dataFiles, plan, PlanKeys(cfg, dataFiles, plan)[k])
  {
    if plan != [] {
      var init := plan[..|plan| - 1];
      var e := plan[|plan| - 1];
      PlanKeysFromEntries(cfg, dataFiles, init);
      var a := PlanKeys(cfg, dataFiles, init);
      var b := FileKeys(dataFiles, PyPath.Join(cfg.dataDir, e.file), e.repeats);
      var r := PlanKeys(cfg, dataFiles, plan);
      assert r == a + b;
      forall k | 0 <= k < |r|
        ensures FromPlan(cfg, dataFiles, plan, r[k])
      {
        if k < |a| {
          assert FromPlan(cfg, dataFiles, init, a[k]);
          var e' :| e' in init && PlanRow(cfg, dataFiles, e', a[k]);
          assert r[k] == a[k] && e' in plan;
        } else {
          assert r[k] == b[k - |a|] && e in plan;
          assert PlanRow(cfg, dataFiles, e, b[k - |a|]);
        }
      }
    } else {
      assert PlanKeys(cfg, dataFiles, plan) == [];
    }
  }

  /** With all four data files present, the default plan writes
      10000 + 1000 + 100 + 10 rows. */
  lemma DefaultPlanRows(cfg: Config, dataFiles: map<string, seq<byte>>)
    requires forall e :: e in DefaultPlan ==> PyPath.Join(cfg.dataDir, e.file) in dataFiles
    ensures |PlanKeys(cfg, dataFiles, DefaultPlan)| == 11110
  {
    var p := DefaultPlan;
    assert p[..4] == p;
    assert p[0] in p && p[1] in p && p[2] in p && p[3] in p;
    assert |PlanKeys(cfg, dataFiles, p[..0])| == 0;
    assert p[..1][..0] == p[..0] && p[..2][..1] == p[..1] && p[..3][..2] == p[..2] && p[..4][..3] == p[..3];
    assert |PlanKeys(cfg, dataFiles, p[..1])| == 10000;
    assert |PlanKeys(cfg, dataFiles, p[..2])| == 11000;
    assert |PlanKeys(cfg, dataFiles, p[..3])| == 11100;
  }

  /** Plan entries are processed in list order: the rows of a concatenated plan
      are the rows of its first part followed by those of its second. */
  lemma {:induction false} PlanKeysConcat(cfg: Config, dataFiles: map<string, seq<byte>>, p1: seq<PlanEntry>, p2: seq<PlanEntry>)
    ensures PlanKeys(cfg, dataFiles, p1 + p2) == PlanKeys(cfg, dataFiles, p1) + PlanKeys(cfg, dataFiles, p2)
  {
    if p2 == [] {
      assert p1 + p2 == p1;
    } else {
      assert (p1 + p2)[..|p1 + p2| - 1] == p1 + p2[..|p2| - 1];
      PlanKeysConcat(cfg, dataFiles, p1, p2[..|p2| - 1]);
    }
  }

  /** A plan whose files are all missing produces no rows. */
  lemma {:induction false} PlanKeysAllMissing(cfg: Config, dataFiles: map<string, seq<byte>>, plan: seq<PlanEntry>)
    requires forall k :: 0 <= k < |plan| ==> PyPath.Join(cfg.dataDir, plan[k].file) !in dataFiles
    ensures PlanKeys(cfg, dataFiles, plan) == []
  {
    if plan != [] {
      PlanKeysAllMissing(cfg, dataFiles, plan[..|plan| - 1]);
    }
  }

  /** The row written for `key`: `["MQTT", "QoS<q>", name, size, i, elapsed, throughput]`. */
  ghost predicate RowMatches(cfg: Config, line: CsvLine, key: RowKey)
  {
    line.Data? && line.row.elapsed >= 0 &&
    line.row == Row("MQTT", Variant(cfg), key.fileName, key.fileSize, key.iteration,
                    line.row.elapsed, Throughput(key.fileSize, line.row.elapsed))
  }

  /** A repetition that saw no ACK lasted at least the timeout. */
  ghost predicate TimeoutRespected(cfg: Config, line: CsvLine, acked: bool)
  {
    line.Data? && (!acked ==> line.row.elapsed >= cfg.ackTimeout)
  }

  /** Row by row, `lines` are the rows for `keys`. */
  ghost predicate RowsMatch(cfg: Config, lines: seq<CsvLine>, keys: seq<RowKey>)
  {
    |lines| == |keys| && forall k :: 0 <= k < |keys| ==> RowMatches(cfg, lines[k], keys[k])
  }

  /** Row by row, each unacknowledged repetition lasted at least the timeout. */
  ghost predicate TimeoutsRespected(cfg: Config, lines: seq<CsvLine>, acked: seq<bool>)
  {
    |lines| == |acked| && forall k :: 0 <= k < |acked| ==> TimeoutRespected(cfg, lines[k], acked[k])
  }

  lemma RowsMatchAppend(cfg: Config, l1: seq<CsvLine>, k1: seq<RowKey>, l2: seq<CsvLine>, k2: seq<RowKey>)
    requires RowsMatch(cfg, l1, k1) && RowsMatch(cfg, l2, k2)
    ensures RowsMatch(cfg, l1 + l2, k1 + k2)
  {
    forall k | 0 <= k < |k1 + k2| ensures RowMatches(cfg, (l1 + l2)[k], (k1 + k2)[k]) {
      if k >= |k1| {
        assert (l1 + l2)[k] == l2[k - |k1|] && (k1 + k2)[k] == k2[k - |k1|];
      }
    }
  }

  lemma TimeoutsRespectedSnoc(cfg: Config, lines: seq<CsvLine>, acked: seq<bool>, line: CsvLine, a: bool)
    requires TimeoutsRespected(cfg, lines, acked) && TimeoutRespected(cfg, line, a)
    ensures TimeoutsRespected(cfg, lines + [line], acked + [a])
  {
    assert forall k :: 0 <= k < |acked| ==> (lines + [line])[k] == lines[k] && (acked + [a])[k] == acked[k];
  }

  /** Discarding `x` after each of two batches of arrivals is discarding it once after both. */
  lemma DiscardTwice<T>(a: set<T>, b: set<T>, c: set<T>, x: T)
    ensures (((a + b) - {x}) + c) - {x} == (a + (b + c)) - {x}
  {
  }

  /** The messages of several batches, one after the other. */
  function Concat<T>(batches: seq<seq<T>>): (r: seq<T>)
    ensures |batches| == 1 ==> r == batches[0]
  {
    if |batches| == 0 then [] else Concat(batches[..|batches| - 1]) + batches[|batches| - 1]
  }

  /** A pass of the repetition loop that ran over the wait steps `s0 .. s1-1`:
      `more` is what arrived during them, the row's time is the publish
      hand-off `h` plus one poll interval per poll, any poll ended less than
      one poll interval after the deadline, and no poll before the last saw
      an ACK for `name`. */
  ghost predicate Pass(cfg: Config, name: string, arrivals: nat -> seq<Message>, h: int,
                       s0: nat, s1: nat, row: CsvLine, more: seq<Message>)
  {
    s0 < s1 && more == Arrived(arrivals, s0, s1) &&
    row.Data? && row.row.elapsed == h + PollTicks * (s1 - s0 - 1) &&
    (row.row.elapsed == h || row.row.elapsed < cfg.ackTimeout + PollTicks) &&
    forall j: nat :: s0 < j < s1 ==> name !in AckedNames(cfg.ackTopicBase, Arrived(arrivals, s0, j))
  }

  /** What the first `n` passes of the repetition loop have left: the rows for
      indices 1..n, each unacknowledged pass at least a timeout long, and the
      messages `gots[k]` that arrived during pass k + 1, of which an ACK for
      `name` made exactly the acknowledged passes; `got` is all of them. */
  ghost predicate Progress(cfg: Config, name: string, size: nat, n: int, rows: seq<CsvLine>,
                           outs: seq<bool>, got: seq<Message>, gots: seq<seq<Message>>)
  {
    RowsMatch(cfg, rows, EntryKeys(name, size, n)) && TimeoutsRespected(cfg, rows, outs) &&
    |gots| == |outs| && got == Concat(gots) &&
    forall k :: 0 <= k < |outs| ==> (outs[k] <==> name in AckedNames(cfg.ackTopicBase, gots[k]))
  }

  /** Pass k + 1 wrote `rows[k]`, received `gots[k]` and ran over the wait
      steps `bounds[k] .. bounds[k + 1] - 1`, after the `(p0 + k + 1)`-th
      publish. */
  ghost predicate Passes(cfg: Config, name: string, arrivals: nat -> seq<Message>, handoff: nat -> nat,
                         p0: nat, bounds: seq<nat>, rows: seq<CsvLine>, gots: seq<seq<Message>>)
  {
    |bounds| == |gots| + 1 && |rows| == |gots| &&
    forall k {:trigger gots[k]} :: 0 <= k < |gots| ==>
      Pass(cfg, name, arrivals, handoff(p0 + k + 1), bounds[k], bounds[k + 1], rows[k], gots[k])
  }

  /** One more pass, starting where the last one ended, extends `Passes`. */
  lemma PassesSnoc(cfg: Config, name: string, arrivals: nat -> seq<Message>, handoff: nat -> nat,
                   p0: nat, bounds: seq<nat>, rows: seq<CsvLine>, gots: seq<seq<Message>>,
                   row: CsvLine, more: seq<Message>, h: int, s0: nat, s1: nat)
    requires Passes(cfg, name, arrivals, handoff, p0, bounds, rows, gots)
    requires h == handoff(p0 + |gots| + 1) && s0 == bounds[|gots|]
    requires Pass(cfg, name, arrivals, h, s0, s1, row, more)
    ensures Passes(cfg, name, arrivals, handoff, p0, bounds + [s1], rows + [row], gots + [more])
  {
    var b, r, g := bounds + [s1], rows + [row], gots + [more];
    forall k | 0 <= k < |g|
      ensures Pass(cfg, name, arrivals, handoff(p0 + k + 1), b[k], b[k + 1], r[k], g[k])
    {
      if k < |gots| {
        assert b[k] == bounds[k] && b[k + 1] == bounds[k + 1] && r[k] == rows[k] && g[k] == gots[k];
      }
    }
  }

  /** The time the rows record, summed. */
  ghost function TotalElapsed(rows: seq<CsvLine>): int
  {
    if rows == [] then 0
    else TotalElapsed(rows[..|rows| - 1]) + (if rows[|rows| - 1].Data? then rows[|rows| - 1].row.elapsed else 0)
  }

  /** One more pass that meets its own contract keeps `Progress`. */
  lemma ProgressStep(cfg: Config, name: string, size: nat, n: nat, rows: seq<CsvLine>,
                     outs: seq<bool>, got: seq<Message>, gots: seq<seq<Message>>,
                     row: CsvLine, acked: bool, more: seq<Message>)
    requires Progress(cfg, name, size, n, rows, outs, got, gots)
    requires RowMatches(cfg, row, RowKey(name, size, n + 1)) && TimeoutRespected(cfg, row, acked)
    requires acked <==> name in AckedNames(cfg.ackTopicBase, more)
    ensures Progress(cfg, name, size, n + 1, rows + [row], outs + [acked], got + more, gots + [more])
    ensures AckedNames(cfg.ackTopicBase, got + more) == AckedNames(cfg.ackTopicBase, got) + AckedNames(cfg.ackTopicBase, more)
  {
    AckedNamesAppend(cfg.ackTopicBase, got, more);
    RowsMatchAppend(cfg, rows, EntryKeys(name, size, n), [row], [RowKey(name, size, n + 1)]);
    TimeoutsRespectedSnoc(cfg, rows, outs, row, acked);
    assert (gots + [more])[..|gots|] == gots;
  }

  lemma AppendAssoc<T>(a: seq<T>, b: seq<T>, c: seq<T>)
    ensures a + b + c == a + (b + c)
  {
  }

  /** Everything that arrives during the wait steps `k0 .. k1-1`, in order. */
  ghost function Arrived(arrivals: nat -> seq<Message>, k0: nat, k1: nat): seq<Message>
    decreases k1
  {
    if k1 <= k0 then [] else Arrived(arrivals, k0, k1 - 1) + arrivals(k1 - 1)
  }

  /** The arrivals of a range of steps are those of its first step, then the rest. */
  lemma {:induction false} ArrivedFirst(arrivals: nat -> seq<Message>, k0: nat, k1: nat)
    requires k0 < k1
    ensures Arrived(arrivals, k0, k1) == arrivals(k0) + Arrived(arrivals, k0 + 1, k1)
    decreases k1
  {
    if k1 > k0 + 1 {
      ArrivedFirst(arrivals, k0, k1 - 1);
      AppendAssoc(arrivals(k0), Arrived(arrivals, k0 + 1, k1 - 1), arrivals(k1 - 1));
    }
  }

  /** The arrivals of two adjacent ranges of steps are those of their union. */
  lemma {:induction false} ArrivedAppend(arrivals: nat -> seq<Message>, k0: nat, k1: nat, k2: nat)
    requires k0 <= k1 <= k2
    ensures Arrived(arrivals, k0, k1) + Arrived(arrivals, k1, k2) == Arrived(arrivals, k0, k2)
    decreases k2
  {
    if k2 > k1 {
      ArrivedAppend(arrivals, k0, k1, k2 - 1);
      AppendAssoc(Arrived(arrivals, k0, k1), Arrived(arrivals, k1, k2 - 1), arrivals(k2 - 1));
    } else {
      assert Arrived(arrivals, k1, k2) == [];
    }
  }

  /** One more poll step of a wait that began at step `s0` with the ACK set
      `acks0` and the log `delivered0`, after the checks so far found no ACK
      for `name`: the step's messages extend what arrived, the logs and the
      ACK set, and the check just made joins the run of checks that found
      nothing. */
  lemma AwaitStep(base: string, name: string, arrivals: nat -> seq<Message>, acks0: set<string>,
                  delivered0: seq<Message>, s0: nat, s: nat, got: seq<Message>)
    requires s0 <= s && got == Arrived(arrivals, s0, s)
    requires forall j :: s0 <= j < s ==> name !in acks0 + AckedNames(base, Arrived(arrivals, s0, j))
    requires name !in acks0 + AckedNames(base, got)
    ensures got + arrivals(s) == Arrived(arrivals, s0, s + 1)
    ensures delivered0 + got + arrivals(s) == delivered0 + (got + arrivals(s))
    ensures acks0 + AckedNames(base, got) + AckedNames(base, arrivals(s)) == acks0 + AckedNames(base, got + arrivals(s))
    ensures forall j :: s0 <= j < s + 1 ==> name !in acks0 + AckedNames(base, Arrived(arrivals, s0, j))
  {
    AckedNamesAppend(base, got, arrivals(s));
  }

  /** The polls of a wait that began after a hand-off step `s0`, at step
      `s1` with the ACK set `acks1` and the clock at `t1`: none of them found
      an ACK for `name` among everything that had arrived since `s0`, the
      hand-off step included. */
  lemma PollsBeforeAck(base: string, name: string, arrivals: nat -> seq<Message>, acks0: set<string>,
                       acks1: set<string>, s0: nat, s1: nat, s2: nat)
    requires name !in acks0 && acks1 == acks0 + AckedNames(base, arrivals(s0)) && s1 == s0 + 1
    requires forall j :: s1 <= j < s2 ==> name !in acks1 + AckedNames(base, Arrived(arrivals, s1, j))
    ensures forall j: nat :: s0 < j < s2 ==> name !in AckedNames(base, Arrived(arrivals, s0, j))
  {
    forall j: nat | s0 < j < s2
      ensures name !in AckedNames(base, Arrived(arrivals, s0, j))
    {
      ArrivedFirst(arrivals, s0, j);
      AckedNamesAppend(base, arrivals(s0), Arrived(arrivals, s1, j));
    }
  }

  /** `x` repeated `n` times. */
  function Repeat<T>(x: T, n: nat): (r: seq<T>)
    ensures |r| == n
    ensures forall k :: 0 <= k < n ==> r[k] == x
  {
    if n == 0 then [] else Repeat(x, n - 1) + [x]
  }

  /** The bookkeeping of one more pass of the repetition loop: the logs grow
      by the pass's entries. */
  lemma LogsStep(csv0: seq<CsvLine>, rows: seq<CsvLine>, row: CsvLine,
                 outcomes0: seq<bool>, outs: seq<bool>, acked: bool,
                 delivered0: seq<Message>, got: seq<Message>, more: seq<Message>,
                 published0: seq<Message>, msg: Message, n: nat, bounds: seq<nat>, s: nat)
    ensures csv0 + rows + [row] == csv0 + (rows + [row])
    ensures outcomes0 + outs + [acked] == outcomes0 + (outs + [acked])
    ensures delivered0 + got + more == delivered0 + (got + more)
    ensures published0 + Repeat(msg, n) + [msg] == published0 + Repeat(msg, n + 1)
    ensures row.Data? ==> TotalElapsed(rows + [row]) == TotalElapsed(rows) + row.row.elapsed
    ensures |bounds| > 0 ==> (bounds + [s])[0] == bounds[0]
  {
    assert (rows + [row])[..|rows|] == rows;
  }

  /** The results file after one run: a run that finds no file starts it with
      the header; one that finds it appends only rows. */
  function ResultsAfterRun(before: Option<seq<CsvLine>>, rows: seq<CsvLine>): seq<CsvLine>
  {
    match before
    case None => [Header(ResultColumns)] + rows
    case Some(lines) => lines + rows
  }

  /** The header is the first line and no other line is one. */
  ghost predicate OneLeadingHeader(lines: seq<CsvLine>)
  {
    |lines| >= 1 && lines[0] == Header(ResultColumns) &&
    forall k :: 1 <= k < |lines| ==> lines[k].Data?
  }

  /** However many runs append to the results file, it keeps exactly one
      header, in front: the first run writes it and later runs find the file. */
  lemma RunKeepsOneHeader(cfg: Config, before: Option<seq<CsvLine>>, rows: seq<CsvLine>, keys: seq<RowKey>)
    requires before.Some? ==> OneLeadingHeader(before.value)
    requires RowsMatch(cfg, rows, keys)
    ensures OneLeadingHeader(ResultsAfterRun(before, rows))
  {
    var after := ResultsAfterRun(before, rows);
    var lead := if before.Some? then before.value else [Header(ResultColumns)];
    assert after == lead + rows;
    forall k | 1 <= k < |after| ensures after[k].Data? {
      if k >= |lead| {
        assert after[k] == rows[k - |lead|];
        assert RowMatches(cfg, rows[k - |lead|], keys[k - |lead|]);
      }
    }
  }

  // ---------------------------------------------------------------- the sender

  /** The publisher process: the ACK registry, the results CSV, what it has
      published, the clock, and the scripted environment. */
  class Sender {
    const cfg: Config
    /** The data directory: path to contents. */
    const dataFiles: map<string, seq<byte>>
    /** The messages the network thread delivers during the `k`-th wait step. */
    const arrivals: nat -> seq<Message>
    /** How long the `k`-th publish takes to reach the socket. */
    const handoff: nat -> nat

    /** `acks`: the file names whose ACK has arrived and not been consumed. */
    var acks: set<string>
    /** The lines this run appends to the results CSV. */
    var csv: seq<CsvLine>
    var published: seq<Message>
    var now: int
    var steps: nat
    /** Every message the network thread has delivered. */
    ghost var delivered: seq<Message>
    /** Per repetition: whether its ACK arrived before the deadline. */
    ghost var outcomes: seq<bool>

    constructor (cfg: Config, dataFiles: map<string, seq<byte>>, arrivals: nat -> seq<Message>, handoff: nat -> nat)
      ensures this.cfg == cfg && this.dataFiles == dataFiles && this.arrivals == arrivals && this.handoff == handoff
      ensures acks == {} && csv == [] && published == [] && now == 0 && steps == 0
      ensures delivered == [] && outcomes == []
    {
      this.cfg := cfg;
      this.dataFiles := dataFiles;
      this.arrivals := arrivals;
      this.handoff := handoff;
      acks := {};
      csv := [];
      published := [];
      now := 0;
      steps := 0;
      delivered := [];
      outcomes := [];
    }

    /** `on_message`: register the file name of a valid ACK, ignore anything else. */
    method OnMessage(m: Message)
      modifies this`acks
      ensures acks == old(acks) + AckedNames(cfg.ackTopicBase, [m])
    {
      assert [m][..0] == [];
      if PyStr.StartsWith(m.topic, cfg.ackTopicBase + "/") && m.payload == AckPayload {
        assert m.topic[|cfg.ackTopicBase|] == (cfg.ackTopicBase + "/")[|cfg.ackTopicBase|];
        var filename := PyStr.SplitOnce(m.topic, '/')[1];
        acks := acks + {filename};
      }
    }

    /** The network thread hands each message of one step to `on_message`. */
    method Deliver(msgs: seq<Message>)
      modifies this`acks, this`delivered
      ensures acks == old(acks) + AckedNames(cfg.ackTopicBase, msgs)
      ensures delivered == old(delivered) + msgs
    {
      for j := 0 to |msgs|
        invariant acks == old(acks) + AckedNames(cfg.ackTopicBase, msgs[..j])
        invariant delivered == old(delivered)
      {
        OnMessage(msgs[j]);
        AckedNamesAppend(cfg.ackTopicBase, msgs[..j], [msgs[j]]);
        assert msgs[..j + 1] == msgs[..j] + [msgs[j]];
      }
      assert msgs[..|msgs|] == msgs;
      delivered := delivered + msgs;
    }

    /** One wait step of `dt` ticks, during which the step's messages arrive. */
    method Advance(dt: nat)
      modifies this`now, this`steps, this`acks, this`delivered
      ensures now == old(now) + dt && steps == old(steps) + 1
      ensures delivered == old(delivered) + arrivals(old(steps))
      ensures acks == old(acks) + AckedNames(cfg.ackTopicBase, arrivals(old(steps)))
    {
      now := now + dt;
      var msgs := arrivals(steps);
      steps := steps + 1;
      Deliver(msgs);
    }

    /** The poll loop: sleep while `name` is not acknowledged and the deadline
        has not come. It stops at the first check that finds either; `got` is
        what arrived meanwhile. */
    method AwaitAck(name: string, deadline: int) returns (ghost got: seq<Message>)
      modifies this`now, this`steps, this`acks, this`delivered
      ensures name in acks || now >= deadline
      ensures (name in old(acks) || old(now) >= deadline) ==> now == old(now) && got == []
      ensures now > old(now) ==> now - PollTicks < deadline
      ensures now >= old(now)
      ensures delivered == old(delivered) + got
      ensures acks == old(acks) + AckedNames(cfg.ackTopicBase, got)
      ensures steps >= old(steps) && got == Arrived(arrivals, old(steps), steps)
      ensures now == old(now) + PollTicks * (steps - old(steps))
      ensures forall j :: old(steps) <= j < steps ==>
        name !in old(acks) + AckedNames(cfg.ackTopicBase, Arrived(arrivals, old(steps), j))
    {
      got := [];
      while name !in acks && now < deadline
        invariant now >= old(now)
        invariant now > old(now) ==> now - PollTicks < deadline
        invariant (name in old(acks) || old(now) >= deadline) ==> now == old(now) && got == []
        invariant delivered == old(delivered) + got
        invariant acks == old(acks) + AckedNames(cfg.ackTopicBase, got)
        invariant steps >= old(steps) && got == Arrived(arrivals, old(steps), steps)
        invariant now == old(now) + PollTicks * (steps - old(steps))
        invariant forall j :: old(steps) <= j < steps ==>
          name !in old(acks) + AckedNames(cfg.ackTopicBase, Arrived(arrivals, old(steps), j))
        decreases deadline - now
      {
        ghost var msgs := arrivals(steps);
        AwaitStep(cfg.ackTopicBase, name, arrivals, old(acks), old(delivered), old(steps), steps, got);
        Advance(PollTicks);
        got := got + msgs;
      }
    }

    /** The timed part of one pass: publish, wait for the hand-off, then poll
        for the ACK until the deadline `t0 + timeout`. `elapsed` is the time
        from `t0` to the end of the poll; `got` is everything that arrived,
        step by step, and no poll but the last saw an ACK for `name`. */
    method PublishAndAwait(name: string, topic: string, data: seq<byte>)
        returns (elapsed: int, ghost got: seq<Message>)
      requires name !in acks
      modifies this`now, this`steps, this`acks, this`delivered, this`published
      ensures published == old(published) + [Message(topic, data, cfg.qos)]
      ensures delivered == old(delivered) + got
      ensures acks == old(acks) + AckedNames(cfg.ackTopicBase, got)
      ensures steps > old(steps) && got == Arrived(arrivals, old(steps), steps)
      ensures elapsed == now - old(now) == handoff(|old(published)| + 1) + PollTicks * (steps - old(steps) - 1)
      ensures name in acks || elapsed >= cfg.ackTimeout
      ensures elapsed == handoff(|old(published)| + 1) || elapsed < cfg.ackTimeout + PollTicks
      ensures forall j: nat :: old(steps) < j < steps ==>
        name !in AckedNames(cfg.ackTopicBase, Arrived(arrivals, old(steps), j))
    {
      var t0 := now;
      ghost var s0 := steps;
      published := published + [Message(topic, data, cfg.qos)];
      ghost var first := arrivals(steps);
      Advance(handoff(|published|));
      ghost var acks1, s1 := acks, steps;
      ghost var rest := AwaitAck(name, t0 + cfg.ackTimeout);
      got := first + rest;
      AckedNamesAppend(cfg.ackTopicBase, first, rest);
      AppendAssoc(old(delivered), first, rest);
      ArrivedFirst(arrivals, s0, steps);
      PollsBeforeAck(cfg.ackTopicBase, name, arrivals, old(acks), acks1, s0, s1, steps);
      var t1 := now;
      elapsed := t1 - t0;
    }

    /** One pass of the repetition loop: the timed exchange, then consume the
        ACK if it came and write the row `row`, acknowledged or not. `acked`
        holds exactly when an ACK for `name` arrived during the pass. The
        ghost `p0`, `bounds`, `rows`, `gots` are the passes before this one,
        which this pass extends. */
    method Repetition(name: string, topic: string, data: seq<byte>, i: nat,
                      ghost p0: nat, ghost bounds: seq<nat>, ghost rows: seq<CsvLine>, ghost gots: seq<seq<Message>>)
        returns (ghost row: CsvLine, ghost acked: bool, ghost got: seq<Message>)
      requires name !in acks
      requires Passes(cfg, name, arrivals, handoff, p0, bounds, rows, gots)
      requires |published| == p0 + |gots| && bounds[|gots|] == steps
      modifies this`now, this`steps, this`acks, this`delivered, this`published, this`outcomes, this`csv
      ensures csv == old(csv) + [row]
      ensures RowMatches(cfg, row, RowKey(name, |data|, i))
      ensures TimeoutRespected(cfg, row, acked)
      ensures row.Data? && (row.row.elapsed == handoff(|old(published)| + 1) || row.row.elapsed < cfg.ackTimeout + PollTicks)
      ensures published == old(published) + [Message(topic, data, cfg.qos)]
      ensures outcomes == old(outcomes) + [acked]
      ensures delivered == old(delivered) + got
      ensures acked <==> name in AckedNames(cfg.ackTopicBase, got)
      ensures acks == (old(acks) + AckedNames(cfg.ackTopicBase, got)) - {name}
      ensures now >= old(now)
      ensures steps > old(steps) && row.Data? && row.row.elapsed == now - old(now)
      ensures Pass(cfg, name, arrivals, handoff(|old(published)| + 1), old(steps), steps, row, got)
      ensures Passes(cfg, name, arrivals, handoff, p0, bounds + [steps], rows + [row], gots + [got])
    {
      var elapsed;
      elapsed, got := PublishAndAwait(name, topic, data);
      var thr := Throughput(|data|, elapsed);
      var ok := name in acks;
      if ok {
        acks := acks - {name};
      }
      acked := ok;
      outcomes := outcomes + [acked];
      var line := Data(Row("MQTT", "QoS" + PyStr.IntToStr(cfg.qos), name, |data|, i, elapsed, thr));
      csv := csv + [line];
      row := line;
      PassesSnoc(cfg, name, arrivals, handoff, p0, bounds, rows, gots, row, got,
                 handoff(|old(published)| + 1), old(steps), steps);
    }

    /** The repetition loop of `send_file`: repetitions numbered 1..repeats,
        one row and one outcome each. */
    method Repetitions(name: string, topic: string, data: seq<byte>, repeats: int)
        returns (ghost rows: seq<CsvLine>, ghost outs: seq<bool>, ghost got: seq<Message>,
                 ghost gots: seq<seq<Message>>, ghost bounds: seq<nat>)
      requires name !in acks
      modifies this`now, this`steps, this`acks, this`delivered, this`published, this`outcomes, this`csv
      ensures csv == old(csv) + rows
      ensures Progress(cfg, name, |data|, repeats, rows, outs, got, gots)
      ensures Passes(cfg, name, arrivals, handoff, |old(published)|, bounds, rows, gots)
      ensures bounds[0] == old(steps) && bounds[|bounds| - 1] == steps
      ensures now == old(now) + TotalElapsed(rows)
      ensures published == old(published) + Repeat(Message(topic, data, cfg.qos), |rows|)
      ensures outcomes == old(outcomes) + outs
      ensures delivered == old(delivered) + got
      ensures acks == (old(acks) + AckedNames(cfg.ackTopicBase, got)) - {name}
      ensures now >= old(now)
      ensures steps >= old(steps) && got == Arrived(arrivals, old(steps), steps)
    {
      ghost var n := |EntryKeys(name, |data|, repeats)|;
      ghost var msg := Message(topic, data, cfg.qos);
      ghost var p0 := |published|;
      rows, outs, got, gots, bounds := [], [], [], [], [steps];
      var i := 1;
      while i <= repeats
        invariant 1 <= i <= n + 1
        invariant csv == old(csv) + rows
        invariant Progress(cfg, name, |data|, i - 1, rows, outs, got, gots)
        invariant Passes(cfg, name, arrivals, handoff, p0, bounds, rows, gots)
        invariant |published| == p0 + |gots|
        invariant bounds[0] == old(steps) && bounds[|bounds| - 1] == steps
        invariant now == old(now) + TotalElapsed(rows)
        invariant published == old(published) + Repeat(msg, i - 1)
        invariant outcomes == old(outcomes) + outs
        invariant delivered == old(delivered) + got
        invariant acks == (old(acks) + AckedNames(cfg.ackTopicBase, got)) - {name}
        invariant now >= old(now)
        invariant steps >= old(steps) && got == Arrived(arrivals, old(steps), steps)
      {
        ghost var before := steps;
        var row, acked, more := Repetition(name, topic, data, i, p0, bounds, rows, gots);
        ProgressStep(cfg, name, |data|, i - 1, rows, outs, got, gots, row, acked, more);
        ArrivedAppend(arrivals, old(steps), before, steps);
        DiscardTwice(old(acks), AckedNames(cfg.ackTopicBase, got), AckedNames(cfg.ackTopicBase, more), name);
        LogsStep(old(csv), rows, row, old(outcomes), outs, acked, old(delivered), got, more, old(published), msg, i - 1, bounds, steps);
        rows, outs, got, gots, bounds := rows + [row], outs + [acked], got + more, gots + [more], bounds + [steps];
        i := i + 1;
      }
      assert EntryKeys(name, |data|, i - 1) == EntryKeys(name, |data|, repeats);
    }

    /** `send_file`: skip a missing file; otherwise discard a stale ACK once and
        run the repetitions. Only the registry entry for this file is ever
        removed. */
    method SendFile(filePath: string, repeats: int)
        returns (ghost rows: seq<CsvLine>, ghost outs: seq<bool>, ghost got: seq<Message>,
                 ghost gots: seq<seq<Message>>, ghost bounds: seq<nat>)
      modifies this`now, this`steps, this`acks, this`delivered, this`published, this`outcomes, this`csv
      ensures csv == old(csv) + rows
      ensures RowsMatch(cfg, rows, FileKeys(dataFiles, filePath, repeats))
      ensures outcomes == old(outcomes) + outs
      ensures delivered == old(delivered) + got
      ensures filePath !in dataFiles ==>
        rows == [] && outs == [] && got == [] && gots == [] && bounds == [old(steps)] &&
        acks == old(acks) && published == old(published) && now == old(now) && steps == old(steps)
      ensures filePath in dataFiles ==>
        var name := PyPath.Name(filePath);
        published == old(published) + Repeat(Message(FileTopic(cfg, name), dataFiles[filePath], cfg.qos), |rows|) &&
        Progress(cfg, name, |dataFiles[filePath]|, repeats, rows, outs, got, gots) &&
        Passes(cfg, name, arrivals, handoff, |old(published)|, bounds, rows, gots) &&
        bounds[0] == old(steps) && bounds[|bounds| - 1] == steps &&
        now == old(now) + TotalElapsed(rows) &&
        acks == (old(acks) + AckedNames(cfg.ackTopicBase, got)) - {name} &&
        name !in acks
      ensures now >= old(now)
      ensures steps >= old(steps) && got == Arrived(arrivals, old(steps), steps)
    {
      var filename := PyPath.Name(filePath);
      var topic := cfg.fileTopicBase + "/" + filename;
      if filePath !in dataFiles {
        return [], [], [], [], [steps];
      }
      var data := dataFiles[filePath];
      acks := acks - {filename};
      rows, outs, got, gots, bounds := Repetitions(filename, topic, data, repeats);
    }

    /** The body of `main`: write the header only when the CSV did not exist
        before the run, then process the plan in list order; `rows` are the
        data rows that follow the header. */
    method RunExperiment(plan: seq<PlanEntry>, csvExisted: bool) returns (ghost rows: seq<CsvLine>)
      modifies this`now, this`steps, this`acks, this`delivered, this`published, this`outcomes, this`csv
      ensures csv == old(csv) + (if csvExisted then [] else [Header(ResultColumns)]) + rows
      ensures RowsMatch(cfg, rows, PlanKeys(cfg, dataFiles, plan))
    {
      if !csvExisted {
        csv := csv + [Header(ResultColumns)];
      }
      ghost var start := csv;
      rows := [];
      for j := 0 to |plan|
        invariant csv == start + rows
        invariant RowsMatch(cfg, rows, PlanKeys(cfg, dataFiles, plan[..j]))
      {
        var path := PyPath.Join(cfg.dataDir, plan[j].file);
        var more, _, _, _, _ := SendFile(path, plan[j].repeats);
        assert plan[..j + 1][..j] == plan[..j];
        AppendAssoc(start, rows, more);
        RowsMatchAppend(cfg, rows, PlanKeys(cfg, dataFiles, plan[..j]), more, FileKeys(dataFiles, path, plan[j].repeats));
        rows := rows + more;
      }
      assert plan[..|plan|] == plan;
    }
  }
}
