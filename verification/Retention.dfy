/** `compact_wal_entries_older_than` on the file it rewrites in place, a crash in the middle included (`wal.rs`). */
module Retention {
  import opened Base
  import opened WalReplay
  import opened WalFormat
  import opened PointInTime
  import opened WalHandle

  /** Reads the file, keeps the entries from the cutoff on, and rewrites the file only if that drops any. */
  method CompactOlderThan(c: Codec, file: seq<Byte>, cutoff: nat, compress: bool)
    returns (removed: Result<nat, Error>, after: seq<Byte>)
    ensures removed.Err? <==> ReadEntries(c, file).Err?
    ensures removed.Err? ==> after == file
    ensures removed.Ok? ==>
              var es := ReadEntries(c, file).value;
              && removed.value == |es| - |Retained(es, cutoff)|
              && after == if removed.value == 0 then file else LogBytes(c, compress, Retained(es, cutoff))
  {
    var entries := ReadLog(c, file);
    if entries.Err? {
      return Err(entries.error), file;
    }
    var kept := KeepFrom(entries.value, cutoff);
    if |kept| == |entries.value| {
      return Ok(0), file;
    }
    after := Rewrite(c, compress, kept);
    removed := Ok(|entries.value| - |kept|);
  }

  method Rewrite(c: Codec, compress: bool, kept: seq<Entry>) returns (after: seq<Byte>)
    ensures after == LogBytes(c, compress, kept)
  {
    after := Header(compress);
    for i := 0 to |kept|
      invariant after == LogBytes(c, compress, kept[..i])
    {
      AppendedBytes(c, compress, kept[..i], kept[i]);
      assert kept[..i + 1] == kept[..i] + [kept[i]];
      after := after + Record(c, compress, kept[i]);
    }
    assert kept[..|kept|] == kept;
  }

  /** The file is emptied first and then written again: a crash leaves a prefix of the new bytes. */
  ghost predicate MidRewrite(c: Codec, compress: bool, es: seq<Entry>, cutoff: nat, found: seq<Byte>) {
    found <= LogBytes(c, compress, Retained(es, cutoff))
  }

  /**
   * What a crash in the middle leaves: the log of a chronological file has lost the k entries that
   * were to be dropped and all but j of those that were to be kept, or it refuses inside a payload.
   */
  lemma {:induction false} CrashDuringCompaction(
      c: Codec, compress: bool, es: seq<Entry>, cutoff: nat, found: seq<Byte>)
    returns (k: nat, j: nat)
    requires Laws(c) && Chronological(es) && (compress ==> AllFit(c, es))
    requires MidRewrite(c, compress, es, cutoff, found)
    ensures k <= |es| && forall i :: 0 <= i < |es| ==> (i < k <==> es[i].timestamp < cutoff)
    ensures Retained(es, cutoff) == es[k..] && k + j <= |es| && ReadsPrefix(c, compress, es[k..], |found|, j)
    ensures ReadEntries(c, found) == Ok(es[k..k + j]) || (compress && ReadEntries(c, found).Err?)
  {
    k := RetainedIsSuffix(es, cutoff);
    j := LogCut(c, compress, es[k..], |found|);
    assert found == LogBytes(c, compress, es[k..])[..|found|];
    assert es[k..][..j] == es[k..k + j];
  }

  lemma {:induction false} ThreeEffects(before: Effects, middle: Effects, after: Effects)
    ensures before + middle + after == middle <==> Repeats(after, middle) && before.Keys <= middle.Keys
  {
    var all := before + middle + after;
    assert forall id :: id in after ==> id in all && all[id] == after[id];
    assert forall id :: id in before ==> id in all;
  }

  lemma {:induction false} EffectOfThree(es: seq<Entry>, k: nat, j: nat, accepts: Checks)
    requires k + j <= |es|
    ensures Effect(Operations(es), accepts) == Effect(Operations(es[..k]), accepts)
              + Effect(Operations(es[k..k + j]), accepts) + Effect(Operations(es[k + j..]), accepts)
  {
    assert es == es[..k] + es[k..k + j] + es[k + j..];
    OperationsConcat(es[..k] + es[k..k + j], es[k + j..]);
    OperationsConcat(es[..k], es[k..k + j]);
    EffectConcat(Operations(es[..k]) + Operations(es[k..k + j]), Operations(es[k + j..]), accepts);
    EffectConcat(Operations(es[..k]), Operations(es[k..k + j]), accepts);
  }

  /**
   * Such a crash is harmless on every store exactly when the entries lost at the end repeat what is
   * still there and every id touched by those dropped at the start is written again by what is.
   */
  lemma {:induction false} CrashHarmlessIff(es: seq<Entry>, k: nat, j: nat, accepts: Checks)
    requires LinkFree(Operations(es)) && k + j <= |es|
    ensures SameOnEveryStore(Operations(es), Operations(es[k..k + j]), accepts)
       <==> && Repeats(Effect(Operations(es[k + j..]), accepts), Effect(Operations(es[k..k + j]), accepts))
            && Effect(Operations(es[..k]), accepts).Keys <= Effect(Operations(es[k..k + j]), accepts).Keys
  {
    EffectOfThree(es, k, j, accepts);
    assert Operations(es[k..k + j]) == Operations(es)[k..k + j];
    SameOnEveryStoreIff(Operations(es), Operations(es[k..k + j]), accepts);
    ThreeEffects(
      Effect(Operations(es[..k]), accepts), Effect(Operations(es[k..k + j]), accepts),
      Effect(Operations(es[k + j..]), accepts));
  }
}
