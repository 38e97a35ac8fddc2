/** The receiving side (`mqtt_subscriber.py`): parse the transfer topic, store
    the payload under a name that does not collide with an existing file,
    acknowledge, then append an overhead record to a CSV log.

    The filesystem is a set of existing path strings; the effects the handler
    has on the outside world (file written, ACK published, CSV lines appended)
    are an event trace that only grows. */
module Subscriber {
  import opened Common
  import PyStr
  import PyPath
  import HeaderEstimate

  /** The environment settings the script reads at start-up. */
  datatype Config = Config(
    fileTopicBase: string,     // FILE_TOPIC_BASE
    ackTopicBase: string,      // ACK_TOPIC_BASE
    subQos: nat,               // SUB_QOS
    outDir: string,            // OUT_DIR
    logCsv: string,            // SUB_LOG_CSV ("" switches logging off)
    uniqueFilenames: bool)     // UNIQUE_FILENAMES

  /** The settings the script uses when the environment sets none. */
  const Defaults := Config("fileTransfer", "fileAck", 1, "received", "subscriber_appbytes.csv", true)

  /** A delivered PUBLISH as the MQTT client hands it over. */
  datatype Inbound = Inbound(topic: string, payload: seq<byte>, qos: nat, dup: bool, retain: bool)

  /** One row of the overhead log (the ratio column is not modelled). */
  datatype OverheadRecord = OverheadRecord(
    receivedAt: int, topic: string, filename: string, qos: nat, dup: bool, retain: bool,
    payloadBytes: nat, headerBytesEst: nat, appTotalBytes: nat, ackTopic: string)

  /** What the handler does to the outside world, in order. */
  datatype Effect =
    | WriteFile(path: string, data: seq<byte>)
    | PublishAck(topic: string, payload: seq<byte>, qos: nat, retain: bool)
    | LogHeader(path: string)
    | LogRecord(path: string, record: OverheadRecord)

  // ---------------------------------------------------------------- topics

  /** The file name carried by a transfer topic `<base>/<filename>`, or `None`
      when the topic has no `/` or its first segment is not `base`. */
  function ParseFileTopic(base: string, topic: string): (r: Option<string>)
    ensures r.Some? ==> '/' !in base && topic == base + "/" + r.value
    ensures '/' !in topic ==> r.None?
  {
    var parts := PyStr.SplitOnce(topic, '/');
    if |parts| != 2 || parts[0] != base then None else Some(parts[1])
  }

  /** A topic is accepted exactly when it is the base, a `/`, and the file name
      (which may itself contain further slashes). */
  lemma ParseFileTopicSpec(base: string, topic: string, filename: string)
    ensures ParseFileTopic(base, topic) == Some(filename) <==> '/' !in base && topic == base + "/" + filename
  {
    if '/' !in base && topic == base + "/" + filename {
      PyStr.SplitOnceAt(base, '/', filename);
    }
  }

  /** A topic is ignored exactly when it has no `/` or what precedes its first
      `/` is not the base. */
  lemma ParseFileTopicIgnored(base: string, topic: string)
    ensures ParseFileTopic(base, topic).None? <==>
      ('/' !in topic || PyStr.SplitOnce(topic, '/')[0] != base)
  {
  }

  /** `f"{ACK_TOPIC_BASE}/{filename}"`. */
  function AckTopic(cfg: Config, filename: string): string
  {
    cfg.ackTopicBase + "/" + filename
  }

  // ---------------------------------------------------------------- unique names

  /** `f"{stem}_{i}{suf}"` for the stem and suffix of `base/name`. */
  function AltName(base: string, name: string, i: nat): (r: string)
    ensures '/' !in r
  {
    var p := PyPath.Join(base, name);
    PyPath.Stem(p) + "_" + PyStr.IntToStr(i) + PyPath.Suffix(p)
  }

  /** The `i`-th alternative path: `<stem>_<i><suffix>` in the base directory. */
  function Candidate(base: string, name: string, i: nat): (r: string)
    ensures PyPath.Name(r) == AltName(base, name, i)
  {
    PyPath.NameJoin(base, AltName(base, name, i));
    PyPath.Join(base, AltName(base, name, i))
  }

  lemma CancelAround(a: string, x: string, y: string, b: string)
    requires a + x + b == a + y + b
    ensures x == y
  {
    assert |x| == |y|;
    assert x == (a + x + b)[|a|..|a| + |x|];
  }

  lemma AltNameInjective(base: string, name: string, i: nat, j: nat)
    requires AltName(base, name, i) == AltName(base, name, j)
    ensures i == j
  {
    var p := PyPath.Join(base, name);
    var pre := PyPath.Stem(p) + "_";
    CancelAround(pre, PyStr.IntToStr(i), PyStr.IntToStr(j), PyPath.Suffix(p));
    PyStr.IntToStrInjective(i, j);
  }

  /** An alternative name is relative: it never starts with `/`. */
  lemma AltNameRelative(base: string, name: string, i: nat)
    ensures |AltName(base, name, i)| > 0 && AltName(base, name, i)[0] != '/'
  {
    var stem := PyPath.Stem(PyPath.Join(base, name));
    if |stem| > 0 {
      assert AltName(base, name, i)[0] == stem[0];
    } else {
      assert AltName(base, name, i)[0] == '_';
    }
  }

  /** Joining a directory to two relative names keeps them apart. */
  lemma JoinRelativeInjective(dir: string, x: string, y: string)
    requires |x| > 0 && x[0] != '/' && |y| > 0 && y[0] != '/'
    requires PyPath.Join(dir, x) == PyPath.Join(dir, y)
    ensures x == y
  {
    var d := if dir == [] || dir[|dir| - 1] == '/' then dir else dir + "/";
    assert PyPath.Join(dir, x) == d + x && PyPath.Join(dir, y) == d + y;
    assert x == (d + x)[|d|..];
  }

  /** Different indices give different candidates. */
  lemma CandidateInjective(base: string, name: string, i: nat, j: nat)
    requires Candidate(base, name, i) == Candidate(base, name, j)
    ensures i == j
  {
    AltNameRelative(base, name, i);
    AltNameRelative(base, name, j);
    JoinRelativeInjective(base, AltName(base, name, i), AltName(base, name, j));
    AltNameInjective(base, name, i, j);
  }

  /** `i` is the first index whose candidate is free. */
  ghost predicate FirstFree(files: set<string>, base: string, name: string, i: nat)
  {
    1 <= i && Candidate(base, name, i) !in files &&
    forall k :: 1 <= k < i ==> Candidate(base, name, k) in files
  }

  /** The first free index is unique, so the specification below fixes the result. */
  lemma FirstFreeUnique(files: set<string>, base: string, name: string, i: nat, j: nat)
    requires FirstFree(files, base, name, i) && FirstFree(files, base, name, j)
    ensures i == j
  {
  }

  /** The path `next_unique_path` must return: `base/name` when uniqueness is off
      or that path is free, otherwise the first free candidate. */
  ghost predicate IsNextUniquePath(files: set<string>, base: string, name: string, unique: bool, p: string)
  {
    var p0 := PyPath.Join(base, name);
    if !unique || p0 !in files then p == p0
    else exists i :: FirstFree(files, base, name, i) && p == Candidate(base, name, i)
  }

  /** The suffix of `report.bin` starts at its dot. */
  lemma ReportSuffixStart()
    ensures PyPath.SuffixStart("report.bin") == Some(6)
  {
    var s := "report.bin";
    assert s[..9] == "report.bi" && s[..9][..8] == "report.b" && s[..9][..8][..7] == "report.";
    assert PyPath.RFind("report.", '.') == Some(6);
    assert PyPath.RFind("report.b", '.') == Some(6);
    assert PyPath.RFind("report.bi", '.') == Some(6);
    assert PyPath.RFind(s, '.') == Some(6);
  }

  /** The pieces of the example below, spelled out. */
  lemma ReportSpelling()
    ensures "report" + "_" + "1" + ".bin" == "report_1.bin"
    ensures "received" + "/" + "report.bin" == "received/report.bin"
    ensures "received" + "/" + "report_1.bin" == "received/report_1.bin"
  {
  }

  /** The first alternative name of `report.bin` is `report_1.bin`. */
  lemma ReportAltName()
    ensures AltName("received", "report.bin", 1) == "report_1.bin"
  {
    var p := PyPath.Join("received", "report.bin");
    ReportSpelling();
    PyPath.NameJoin("received", "report.bin");
    ReportSuffixStart();
    assert PyPath.Suffix(p) == "report.bin"[6..] == ".bin";
    assert PyPath.Stem(p) == "report.bin"[..6] == "report";
    assert PyStr.IntToStr(1) == "1";
  }

  /** A second `report.bin` received into `received` is stored as
      `received/report_1.bin`. */
  lemma SecondCopyName()
    ensures Candidate("received", "report.bin", 1) == "received/report_1.bin"
    ensures IsNextUniquePath({"received/report.bin"}, "received", "report.bin", true, "received/report_1.bin")
  {
    ReportSpelling();
    ReportAltName();
    assert FirstFree({"received/report.bin"}, "received", "report.bin", 1);
  }

  lemma SubsetCard(a: set<string>, b: set<string>)
    requires a <= b
    ensures |a| <= |b|
  {
    if a != {} {
      var x :| x in a;
      SubsetCard(a - {x}, b - {x});
    }
  }

  /** The candidates with indices `1 .. i - 1`. */
  ghost function Tried(cand: nat -> string, i: nat): set<string>
  {
    if i <= 1 then {} else Tried(cand, i - 1) + {cand(i - 1)}
  }

  /** For an injective naming, the candidates tried so far are `i - 1`
      distinct paths, none of them a later candidate. */
  lemma {:induction false} TriedSpec(cand: nat -> string, i: nat)
    requires forall a: nat, b: nat :: cand(a) == cand(b) ==> a == b
    requires i >= 1
    ensures |Tried(cand, i)| == i - 1
    ensures forall k: nat :: i <= k ==> cand(k) !in Tried(cand, i)
  {
    if i > 1 {
      TriedSpec(cand, i - 1);
    }
  }

  /** The counter loop of `next_unique_path`: tries index 1, 2, ... until the
      candidate is free. It ends because distinct indices give distinct
      candidates and only finitely many files exist. */
  method SearchFree(files: set<string>, cand: nat -> string) returns (i: nat)
    requires forall a: nat, b: nat :: cand(a) == cand(b) ==> a == b
    ensures i >= 1 && cand(i) !in files
    ensures forall k: nat :: 1 <= k < i ==> cand(k) in files
  {
    i := 1;
    while cand(i) in files
      invariant 1 <= i
      invariant Tried(cand, i) <= files
      invariant forall k: nat :: 1 <= k < i ==> cand(k) in files
      decreases |files| - i
    {
      TriedSpec(cand, i + 1);
      SubsetCard(Tried(cand, i + 1), files);
      i := i + 1;
    }
  }

  /** The first free `<stem>_<i><suffix>`. */
  method FirstFreeIndex(files: set<string>, base: string, name: string) returns (i: nat)
    ensures FirstFree(files, base, name, i)
  {
    var cand := (k: nat) => Candidate(base, name, k);
    forall a: nat, b: nat | cand(a) == cand(b) ensures a == b {
      CandidateInjective(base, name, a, b);
    }
    i := SearchFree(files, cand);
    forall k: nat | 1 <= k < i ensures Candidate(base, name, k) in files {
      assert cand(k) in files;
    }
  }

  /** `next_unique_path`: `base/name` unless uniqueness is on and that path
      exists, else the first free `<stem>_<i><suffix>`; with uniqueness on,
      the result never names an existing file. */
  method NextUniquePath(files: set<string>, base: string, name: string, unique: bool) returns (p: string)
    ensures IsNextUniquePath(files, base, name, unique, p)
    ensures unique ==> p !in files
  {
    p := PyPath.Join(base, name);
    if !unique || p !in files {
      return;
    }
    var i := FirstFreeIndex(files, base, name);
    p := Candidate(base, name, i);
  }

  // ---------------------------------------------------------------- the log

  /** What `log_row` appends: nothing when logging is off, else a header only
      when the log file does not exist yet, then the record. */
  function LogEffects(cfg: Config, files: set<string>, rec: OverheadRecord): (r: seq<Effect>)
    ensures r == [] <==> cfg.logCsv == []
    ensures r != [] ==> r[|r| - 1] == LogRecord(cfg.logCsv, rec)
  {
    if cfg.logCsv == [] then []
    else (if cfg.logCsv in files then [] else [LogHeader(cfg.logCsv)]) + [LogRecord(cfg.logCsv, rec)]
  }

  /** The files present after `log_row`. */
  function LogFiles(cfg: Config, files: set<string>): set<string>
  {
    if cfg.logCsv == [] then files else files + {cfg.logCsv}
  }

  /** How many header lines the trace has written to `path`. */
  function HeaderCount(effects: seq<Effect>, path: string): nat
  {
    if effects == [] then 0
    else
      var last := if effects[|effects| - 1] == LogHeader(path) then 1 else 0;
      HeaderCount(effects[..|effects| - 1], path) + last
  }

  lemma {:induction false} HeaderCountAppend(a: seq<Effect>, b: seq<Effect>, path: string)
    ensures HeaderCount(a + b, path) == HeaderCount(a, path) + HeaderCount(b, path)
  {
    if b == [] {
      assert a + b == a;
    } else {
      assert (a + b)[..|a + b| - 1] == a + b[..|b| - 1];
      HeaderCountAppend(a, b[..|b| - 1], path);
    }
  }

  lemma {:induction false} NoHeaders(effects: seq<Effect>, path: string)
    requires forall k :: 0 <= k < |effects| ==> !effects[k].LogHeader?
    ensures HeaderCount(effects, path) == 0
  {
    if effects != [] {
      NoHeaders(effects[..|effects| - 1], path);
    }
  }

  /** One `log_row` writes a header to `path` exactly when `path` is the log
      file, logging is on and the file did not exist. */
  lemma LogEffectsHeaders(cfg: Config, files: set<string>, rec: OverheadRecord, path: string)
    ensures HeaderCount(LogEffects(cfg, files, rec), path) ==
      (if cfg.logCsv != [] && cfg.logCsv !in files && path == cfg.logCsv then 1 else 0)
  {
    if cfg.logCsv != [] {
      var h := if cfg.logCsv in files then [] else [LogHeader(cfg.logCsv)];
      HeaderCountAppend(h, [LogRecord(cfg.logCsv, rec)], path);
      HeaderCountSingle(LogRecord(cfg.logCsv, rec), path);
      if h != [] { HeaderCountSingle(LogHeader(cfg.logCsv), path); }
    }
  }

  lemma HeaderCountSingle(e: Effect, path: string)
    ensures HeaderCount([e], path) == if e == LogHeader(path) then 1 else 0
  {
    assert [e][..0] == [];
  }

  /** Logging twice in a row writes at most one header, and only for a log
      file that did not exist before. */
  lemma LogHeaderOnce(cfg: Config, files: set<string>, r1: OverheadRecord, r2: OverheadRecord)
    ensures var trace := LogEffects(cfg, files, r1) + LogEffects(cfg, LogFiles(cfg, files), r2);
      HeaderCount(trace, cfg.logCsv) == (if cfg.logCsv == [] || cfg.logCsv in files then 0 else 1)
  {
    HeaderCountAppend(LogEffects(cfg, files, r1), LogEffects(cfg, LogFiles(cfg, files), r2), cfg.logCsv);
    if cfg.logCsv != [] {
      var h := if cfg.logCsv in files then [] else [LogHeader(cfg.logCsv)];
      HeaderCountAppend(h, [LogRecord(cfg.logCsv, r1)], cfg.logCsv);
      HeaderCountAppend([], [LogRecord(cfg.logCsv, r2)], cfg.logCsv);
      assert LogEffects(cfg, LogFiles(cfg, files), r2) == [] + [LogRecord(cfg.logCsv, r2)];
      if h != [] {
        assert HeaderCount(h, cfg.logCsv) == HeaderCount([] + h, cfg.logCsv);
        HeaderCountAppend([], h, cfg.logCsv);
      }
    }
  }

  /** The overhead record of one accepted message. */
  function RecordOf(cfg: Config, msg: Inbound, filename: string, receivedAt: int): (rec: OverheadRecord)
    ensures rec.headerBytesEst == HeaderEstimate.PublishHeaderLen(msg.topic, msg.qos, |msg.payload|)
    ensures rec.appTotalBytes == rec.headerBytesEst + |msg.payload|
    ensures rec.ackTopic == AckTopic(cfg, filename)
  {
    var header := HeaderEstimate.PublishHeaderLen(msg.topic, msg.qos, |msg.payload|);
    OverheadRecord(receivedAt, msg.topic, filename, msg.qos, msg.dup, msg.retain,
      |msg.payload|, header, header + |msg.payload|, AckTopic(cfg, filename))
  }

  /** Every acknowledgement in a trace directly follows a file write. */
  ghost predicate AcksFollowWrites(effects: seq<Effect>)
  {
    forall k :: 0 <= k < |effects| && effects[k].PublishAck? ==> k > 0 && effects[k - 1].WriteFile?
  }

  /** The subscriber process: its view of the filesystem and its effect trace. */
  class Receiver {
    const cfg: Config
    var files: set<string>
    var effects: seq<Effect>

    /** At most one header per log file, only in a file that now exists, and no
        acknowledgement without the write before it. */
    ghost predicate Valid()
      reads this
    {
      (forall path :: HeaderCount(effects, path) <= 1) &&
      (forall path :: HeaderCount(effects, path) == 1 ==> path in files) &&
      AcksFollowWrites(effects)
    }

    constructor (cfg: Config, files: set<string>)
      ensures Valid()
      ensures this.cfg == cfg && this.files == files && effects == []
    {
      this.cfg := cfg;
      this.files := files;
      effects := [];
    }

    /** `log_row`. */
    method LogRow(rec: OverheadRecord)
      requires Valid()
      modifies this
      ensures Valid()
      ensures files == LogFiles(cfg, old(files))
      ensures effects == old(effects) + LogEffects(cfg, old(files), rec)
    {
      if cfg.logCsv == [] {
        return;
      }
      var newFile := cfg.logCsv !in files;
      if newFile {
        effects := effects + [LogHeader(cfg.logCsv)];
      }
      effects := effects + [LogRecord(cfg.logCsv, rec)];
      files := files + {cfg.logCsv};
      LogRowKeepsValid(old(effects), old(files), rec);
    }

    /** The trace invariant survives appending one `log_row`'s lines. */
    lemma LogRowKeepsValid(effects0: seq<Effect>, files0: set<string>, rec: OverheadRecord)
      requires (forall path :: HeaderCount(effects0, path) <= 1) &&
        (forall path :: HeaderCount(effects0, path) == 1 ==> path in files0) &&
        AcksFollowWrites(effects0)
      requires cfg.logCsv != []
      requires effects == effects0 + LogEffects(cfg, files0, rec)
      requires files == LogFiles(cfg, files0)
      ensures Valid()
    {
      forall path ensures HeaderCount(effects, path) <= 1 && (HeaderCount(effects, path) == 1 ==> path in files) {
        HeaderCountAppend(effects0, LogEffects(cfg, files0, rec), path);
        LogEffectsHeaders(cfg, files0, rec, path);
      }
    }

    /** The payload write followed by the acknowledgement, in that order. */
    method WriteThenAck(path: string, data: seq<byte>, ackTopic: string)
      requires Valid()
      modifies this
      ensures Valid()
      ensures files == old(files) + {path}
      ensures effects == old(effects) + [WriteFile(path, data), PublishAck(ackTopic, AckPayload, cfg.subQos, false)]
    {
      var added := [WriteFile(path, data), PublishAck(ackTopic, AckPayload, cfg.subQos, false)];
      forall p ensures HeaderCount(effects + added, p) == HeaderCount(effects, p) {
        HeaderCountAppend(effects, added, p);
        NoHeaders(added, p);
      }
      effects := effects + added;
      files := files + {path};
    }

    /** `on_message`: ignore foreign topics; otherwise write the payload to a
        fresh path, then publish the ACK, then log. A failed write raises, so
        neither the ACK nor the log row follow it. */
    method OnMessage(msg: Inbound, receivedAt: int, writeSucceeds: bool)
      requires Valid()
      modifies this
      ensures Valid()
      ensures ParseFileTopic(cfg.fileTopicBase, msg.topic).None? ==>
        files == old(files) && effects == old(effects)
      ensures ParseFileTopic(cfg.fileTopicBase, msg.topic).Some? && !writeSucceeds ==>
        files == old(files) + {cfg.outDir} && effects == old(effects)
      ensures ParseFileTopic(cfg.fileTopicBase, msg.topic).Some? && writeSucceeds ==>
        var f := ParseFileTopic(cfg.fileTopicBase, msg.topic).value;
        var n := |old(effects)|;
        |effects| >= n + 2 && effects[..n] == old(effects) &&
        var written := effects[n];
        var before := old(files) + {cfg.outDir};
        written.WriteFile? && written.data == msg.payload &&
        IsNextUniquePath(before, cfg.outDir, f, cfg.uniqueFilenames, written.path) &&
        (cfg.uniqueFilenames ==> written.path !in before) &&
        effects[n + 1] == PublishAck(AckTopic(cfg, f), AckPayload, cfg.subQos, false) &&
        effects[n + 2..] == LogEffects(cfg, before + {written.path}, RecordOf(cfg, msg, f, receivedAt)) &&
        files == LogFiles(cfg, before + {written.path})
    {
      var parts := PyStr.SplitOnce(msg.topic, '/');
      if |parts| != 2 || parts[0] != cfg.fileTopicBase {
        return;
      }
      var filename := parts[1];
      var headerBytes := HeaderEstimate.ComputePublishHeaderLen(msg.topic, msg.qos, |msg.payload|);
      var appTotal := headerBytes + |msg.payload|;

      files := files + {cfg.outDir};
      var outPath := NextUniquePath(files, cfg.outDir, filename, cfg.uniqueFilenames);
      if !writeSucceeds {
        return;
      }
      ghost var n := |effects|;
      ghost var before := files;
      var ackTopic := cfg.ackTopicBase + "/" + filename;
      WriteThenAck(outPath, msg.payload, ackTopic);

      var rec := OverheadRecord(receivedAt, msg.topic, filename, msg.qos, msg.dup, msg.retain,
        |msg.payload|, headerBytes, appTotal, ackTopic);
      assert rec == RecordOf(cfg, msg, filename, receivedAt);
      ghost var mid := effects;
      LogRow(rec);
      assert effects == mid + LogEffects(cfg, before + {outPath}, rec);
      assert effects[n + 2..] == LogEffects(cfg, before + {outPath}, rec);
    }
  }
}
