/** The write-ahead log of one collection: the readers of `wal.log`, and the `Wal` handle. */
module WalHandle {
  import opened Base
  import opened WalReplay
  import opened WalFormat

  // ---- Reading ----

  /** Reads lines until one is not UTF-8, skipping blank and malformed ones. */
  method ReadEntriesJsonl(c: Codec, b: seq<Byte>) returns (entries: seq<Entry>)
    ensures entries == ReadLines(c, b)
  {
    entries := [];
    var rest := b;
    while rest != []
      invariant entries + ReadLines(c, rest) == ReadLines(c, b)
      decreases |rest|
    {
      var line := rest[..LineEnd(rest)];
      OneLineRead(c, rest, entries);
      if !c.utf8(line) {
        return;
      }
      entries := entries + LineEntry(c, line);
      rest := AfterLine(rest);
    }
  }

  /** What a line that is UTF-8 contributes. */
  function LineEntry(c: Codec, line: seq<Byte>): seq<Entry> {
    if c.blank(line) then []
    else
      match c.parse(line)
      case Some(e) => [e]
      case None => []
  }

  lemma {:induction false} OneLineRead(c: Codec, b: seq<Byte>, entries: seq<Entry>)
    requires b != []
    ensures var line := b[..LineEnd(b)];
            entries + ReadLines(c, b) ==
            if c.utf8(line) then entries + LineEntry(c, line) + ReadLines(c, AfterLine(b)) else entries
  {
    var line := b[..LineEnd(b)];
    assert ReadLines(c, b) == if c.utf8(line) then LineEntry(c, line) + ReadLines(c, AfterLine(b)) else [];
  }

  ghost function Extend(entries: seq<Entry>, r: Result<seq<Entry>, Error>): Result<seq<Entry>, Error> {
    match r
    case Ok(es) => Ok(entries + es)
    case Err(x) => Err(x)
  }

  /** Reads frames until a torn length or a bad frame; a torn payload aborts the read. */
  method ReadEntriesCompressed(c: Codec, b: seq<Byte>) returns (r: Result<seq<Entry>, Error>)
    ensures r == ReadFrames(c, b)
  {
    var entries: seq<Entry> := [];
    var pos := 0;
    assert b[0..] == b;
    ExtendUnits([], ReadFrames(c, b));
    while |b| - pos >= 4
      invariant 0 <= pos <= |b|
      invariant Extend(entries, ReadFrames(c, b[pos..])) == ReadFrames(c, b)
    {
      ExtendUnits(entries, ReadFrames(c, b[pos..]));
      assert b[pos..][..4] == b[pos..pos + 4];
      var len := FromLe(b[pos..pos + 4]);
      if len == 0 || len > MAX_FRAME {
        return Ok(entries);
      }
      pos := pos + 4;
      if |b| - pos < len {
        return Err(Storage("failed to read WAL compressed frame"));
      }
      assert b[pos - 4..][4..4 + len] == b[pos..pos + len] && b[pos - 4..][4 + len..] == b[pos + len..];
      match c.inflate(b[pos..pos + len]) {
        case None =>
          return Ok(entries);
        case Some(json) =>
          if !c.utf8(json) {
            return Err(Storage("WAL decompressed frame is not UTF-8"));
          }
          match c.parse(json) {
            case Some(e) =>
              ExtendPrepend(entries, e, ReadFrames(c, b[pos + len..]));
              entries := entries + [e];
            case None =>
          }
      }
      pos := pos + len;
    }
    ExtendUnits(entries, ReadFrames(c, b[pos..]));
    return Ok(entries);
  }

  lemma {:induction false} ExtendUnits(entries: seq<Entry>, r: Result<seq<Entry>, Error>)
    ensures Extend([], r) == r
    ensures Extend(entries, Ok([])) == Ok(entries)
  {
    if r.Ok? {
      assert [] + r.value == r.value;
    }
    assert entries + [] == entries;
  }

  lemma {:induction false} ExtendPrepend(entries: seq<Entry>, e: Entry, r: Result<seq<Entry>, Error>)
    ensures Extend(entries, Prepend(e, r)) == Extend(entries + [e], r)
  {
    if r.Ok? {
      assert entries + ([e] + r.value) == entries + [e] + r.value;
    }
  }

  method ReadLog(c: Codec, b: seq<Byte>) returns (r: Result<seq<Entry>, Error>)
    ensures r == ReadEntries(c, b)
  {
    if IsCompressed(b) {
      r := ReadEntriesCompressed(c, b[4..]);
    } else {
      var entries := ReadEntriesJsonl(c, b);
      r := Ok(entries);
    }
  }

  method CountLog(c: Codec, b: seq<Byte>) returns (r: Result<nat, Error>)
    ensures r == CountEntries(c, b)
  {
    if IsCompressed(b) {
      var frames := ReadEntriesCompressed(c, b[4..]);
      match frames {
        case Ok(es) => return Ok(|es|);
        case Err(x) => return Err(x);
      }
    }
    var count, rest := 0, b;
    while rest != [] && c.utf8(rest[..LineEnd(rest)])
      invariant count + CountLines(c, rest) == CountLines(c, b)
      decreases |rest|
    {
      if !c.blank(rest[..LineEnd(rest)]) {
        count := count + 1;
      }
      rest := AfterLine(rest);
    }
    return Ok(count);
  }

  // ---- The handle ----

  datatype WalConfig = WalConfig(
    compress: bool,
    fsyncPerWrite: bool,
    fsyncEveryNOps: nat)

  /** The defaults leave per-write fsync off. */
  const DEFAULT_CONFIG := WalConfig(false, false, 1000)

  class Wal {
    const codec: Codec
    const config: WalConfig
    /** The content of `wal.log` as the operating system has it. */
    var file: seq<Byte>
    var opsSinceSnapshot: nat
    var opsSinceFsync: nat

    /** What the file held when it was opened or last truncated. */
    ghost var base: seq<Byte>
    /** The entries appended since then: synced ones, then those a power loss may still take. */
    ghost var durable: seq<Entry>
    ghost var unsynced: seq<Entry>

    ghost predicate Valid()
      reads this
    {
      && Consistent() && |unsynced| <= opsSinceFsync
      && (if config.fsyncPerWrite then opsSinceFsync == 0 else opsSinceFsync < Max(1, config.fsyncEveryNOps))
    }

    constructor (codec: Codec, config: WalConfig, existing: seq<Byte>, count: nat)
      ensures Valid()
      ensures this.codec == codec && this.config == config
      ensures base == file && durable == [] && unsynced == []
      ensures file == if config.compress && existing == [] then MAGIC else existing
      ensures opsSinceSnapshot == count && opsSinceFsync == 0
    {
      this.codec := codec;
      this.config := config;
      var bytes := if config.compress && existing == [] then MAGIC else existing;
      file := bytes;
      opsSinceSnapshot := count;
      opsSinceFsync := 0;
      base := bytes;
      durable := [];
      unsynced := [];
      new;
      assert file == base + Records(codec, config.compress, [] + []);
    }

    /** Opens the log in append mode, counting what it already holds; writes the magic into an empty one. */
    static method OpenWithConfig(codec: Codec, config: WalConfig, existing: seq<Byte>)
      returns (r: Result<Wal, Error>)
      ensures r.Ok? <==> CountEntries(codec, existing).Ok?
      ensures r.Ok? ==>
        && fresh(r.value) && r.value.Valid() && r.value.codec == codec && r.value.config == config
        && r.value.base == r.value.file && r.value.durable == [] && r.value.unsynced == []
        && r.value.opsSinceSnapshot == CountEntries(codec, existing).value
        && r.value.file == if config.compress && existing == [] then MAGIC else existing
    {
      var count := CountLog(codec, existing);
      match count {
        case Err(x) => r := Err(x);
        case Ok(n) =>
          var wal := new Wal(codec, config, existing, n);
          r := Ok(wal);
      }
    }

    /**
     * The form the start-up path uses: whatever the storage options ask for, the handle of a
     * reloaded collection does not sync per write.
     */
    static method Open(codec: Codec, compress: bool, existing: seq<Byte>)
      returns (r: Result<Wal, Error>)
      ensures r.Ok? <==> CountEntries(codec, existing).Ok?
      ensures r.Ok? ==>
        && fresh(r.value) && r.value.Valid() && !r.value.config.fsyncPerWrite
        && r.value.config.fsyncEveryNOps == 1000
        && r.value.opsSinceSnapshot == CountEntries(codec, existing).value
    {
      r := OpenWithConfig(codec, DEFAULT_CONFIG.(compress := compress), existing);
    }

    /** Writes one record and flushes; syncs when configured or when enough operations have piled up. */
    method AppendEntry(e: Entry, intervalElapsed: bool)
      requires Valid()
      modifies this
      ensures Valid()
      ensures file == old(file) + Record(codec, config.compress, e)
      ensures durable + unsynced == old(durable + unsynced) + [e]
      ensures base == old(base) && opsSinceSnapshot == old(opsSinceSnapshot)
      ensures unsynced == [] <==>
              config.fsyncPerWrite || intervalElapsed || old(opsSinceFsync) + 1 >= config.fsyncEveryNOps
      ensures unsynced == [] ==> opsSinceFsync == 0
      ensures unsynced != [] ==> unsynced == old(unsynced) + [e] && opsSinceFsync == old(opsSinceFsync) + 1
    {
      WriteRecord(e);
      var needsFsync := true;
      if !config.fsyncPerWrite {
        opsSinceFsync := opsSinceFsync + 1;
        needsFsync := opsSinceFsync >= config.fsyncEveryNOps || intervalElapsed;
      }
      if needsFsync {
        Sync();
      }
    }

    /** The file holds what has been appended. */
    ghost predicate Consistent()
      reads this
    {
      file == base + Records(codec, config.compress, durable + unsynced)
    }

    method WriteRecord(e: Entry)
      requires Consistent()
      modifies `file, `unsynced
      ensures Consistent() && file == old(file) + Record(codec, config.compress, e) && unsynced == old(unsynced) + [e]
      ensures durable + unsynced == old(durable + unsynced) + [e]
    {
      AppendedBytes(codec, config.compress, durable + unsynced, e);
      file := file + Record(codec, config.compress, e);
      unsynced := unsynced + [e];
      assert durable + unsynced == old(durable + unsynced) + [e];
    }

    method Sync()
      requires Consistent()
      modifies `opsSinceFsync, `durable, `unsynced
      ensures Valid() && opsSinceFsync == 0 && unsynced == [] && durable == old(durable + unsynced)
    {
      opsSinceFsync := 0;
      durable, unsynced := durable + unsynced, [];
      assert durable + unsynced == durable;
    }

    /** `append_upsert`, `append_delete` and `append_link`: refused outright once the log is too long. */
    method Append(op: Operation, timestamp: nat, intervalElapsed: bool) returns (r: Result<(), Error>)
      requires Valid()
      modifies this
      ensures Valid() && base == old(base)
      ensures r.Err? <==> old(opsSinceSnapshot) >= MAX_OPS_BEFORE_BACKPRESSURE
      ensures r.Err? ==>
        file == old(file) && opsSinceSnapshot == old(opsSinceSnapshot) && durable + unsynced == old(durable + unsynced)
      ensures r.Ok? ==>
        && file == old(file) + Record(codec, config.compress, Entry(timestamp, op))
        && opsSinceSnapshot == old(opsSinceSnapshot) + 1
        && durable + unsynced == old(durable + unsynced) + [Entry(timestamp, op)]
        && (unsynced == [] <==>
              config.fsyncPerWrite || intervalElapsed || old(opsSinceFsync) + 1 >= config.fsyncEveryNOps)
    {
      if opsSinceSnapshot >= MAX_OPS_BEFORE_BACKPRESSURE {
        return Err(Storage("WAL too large, snapshot required"));
      }
      AppendEntry(Entry(timestamp, op), intervalElapsed);
      opsSinceSnapshot := opsSinceSnapshot + 1;
      r := Ok(());
    }

    /** Empties the log, down to its header. The fsync counter is not reset. */
    method TruncateAfterSnapshot()
      requires Valid()
      modifies this
      ensures Valid()
      ensures file == base == Header(config.compress) && durable == [] && unsynced == []
      ensures opsSinceSnapshot == 0 && opsSinceFsync == old(opsSinceFsync)
    {
      file := if config.compress then MAGIC else [];
      opsSinceSnapshot := 0;
      base, durable, unsynced := file, [], [];
      assert file == base + Records(codec, config.compress, [] + []);
    }
  }

  /** The log of a handle that was opened on a log of `prior`. */
  lemma {:induction false} WholeLog(wal: Wal, prior: seq<Entry>)
    requires wal.Valid() && wal.base == LogBytes(wal.codec, wal.config.compress, prior)
    ensures wal.file == LogBytes(wal.codec, wal.config.compress, prior + wal.durable + wal.unsynced)
  {
    assert prior + wal.durable + wal.unsynced == prior + (wal.durable + wal.unsynced);
    RecordsConcat(wal.codec, wal.config.compress, prior, wal.durable + wal.unsynced);
    AppendAssoc(Header(wal.config.compress), Records(wal.codec, wal.config.compress, prior),
                Records(wal.codec, wal.config.compress, wal.durable + wal.unsynced));
  }

  /** A cut reads at least what lies before it. */
  lemma {:induction false} CutKeeps(c: Codec, compress: bool, all: seq<Entry>, m: nat, kept: nat, j: nat)
    requires m <= |all| && kept <= |LogBytes(c, compress, all)| && ReadsPrefix(c, compress, all, kept, j)
    ensures kept >= |LogBytes(c, compress, all[..m])| ==> j >= m
  {
    WholeRecordsRead(c, compress, all, kept, j, m);
  }

  lemma {:induction false} CutKeepsSynced(
      c: Codec, compress: bool, prior: seq<Entry>, durable: seq<Entry>, unsynced: seq<Entry>, kept: nat)
    returns (j: nat)
    requires Laws(c) && (compress ==> AllFit(c, prior + durable + unsynced))
    requires kept <= |LogBytes(c, compress, prior + durable + unsynced)|
    ensures ReadsPrefix(c, compress, prior + durable + unsynced, kept, j)
    ensures kept >= |LogBytes(c, compress, prior)| ==> j >= |prior|
    ensures kept >= |LogBytes(c, compress, prior + durable)| ==> j >= |prior + durable|
  {
    var all := prior + durable + unsynced;
    j := LogCut(c, compress, all, kept);
    assert all[..|prior|] == prior && all[..|prior + durable|] == prior + durable;
    CutKeeps(c, compress, all, |prior|, kept, j);
    CutKeeps(c, compress, all, |prior + durable|, kept, j);
  }

  /**
   * A power loss keeps the synced bytes and any prefix of the others. Whatever log the handle was
   * opened on, what is left reads as a prefix of the entries, or refuses inside a compressed payload;
   * once the bytes up to the last sync are safe it costs only acknowledged entries at the end of the
   * log, fewer than max(1, fsync_every_n_ops) of them, and none with a sync per write.
   */
  lemma {:induction false} PowerLoss(wal: Wal, prior: seq<Entry>, kept: nat) returns (j: nat)
    requires wal.Valid() && wal.base == LogBytes(wal.codec, wal.config.compress, prior) && kept <= |wal.file|
    requires Laws(wal.codec) && (wal.config.compress ==> AllFit(wal.codec, prior + wal.durable + wal.unsynced))
    ensures var all, r := prior + wal.durable + wal.unsynced, ReadEntries(wal.codec, wal.file[..kept]);
            j <= |all| && (r == Ok(all[..j]) || (r.Err? && wal.config.compress))
    ensures kept >= |wal.base| ==> j >= |prior|
    ensures kept >= |LogBytes(wal.codec, wal.config.compress, prior + wal.durable)| ==>
              && j >= |prior + wal.durable|
              && |prior + wal.durable + wal.unsynced| - j < Max(1, wal.config.fsyncEveryNOps)
              && (wal.config.fsyncPerWrite ==> j == |prior + wal.durable + wal.unsynced|)
  {
    WholeLog(wal, prior);
    j := CutKeepsSynced(wal.codec, wal.config.compress, prior, wal.durable, wal.unsynced, kept);
  }
}
