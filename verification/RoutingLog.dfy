/**
  * The rotating log. Files are numbered, 0 being the live file; a rotation is a descending
  * series of renames any of which may fail, leaving the files as they are at that moment.
  */
module RoutingLog {

  /** One written line; `bytes` counts its newline. */
  datatype Entry = Entry(id: nat, bytes: nat)

  type Files = map<nat, seq<Entry>>

  function Content(f: Files, i: nat): seq<Entry> {
    if i in f then f[i] else []
  }

  function Size(s: seq<Entry>): nat {
    if s == [] then 0 else Size(s[..|s| - 1]) + s[|s| - 1].bytes
  }

  /** What a reader finds in files `b`, ..., 1, 0, in that order. */
  function Retained(f: Files, b: nat): seq<Entry> {
    if b == 0 then Content(f, 0) else Content(f, b) + Retained(f, b - 1)
  }

  ghost predicate IsSuffix(s: seq<Entry>, t: seq<Entry>) {
    |s| <= |t| && s == t[|t| - |s|..]
  }

  // ---------------------------------------------------------------- one rotation, step by step

  function Remove(f: Files, i: nat): Files {
    map k | k in f && k != i :: f[k]
  }

  /** Rename file `i` to `j`, replacing `j`; nothing happens when `i` does not exist. */
  function Rename(f: Files, i: nat, j: nat): Files {
    if i in f then Remove(f, i)[j := f[i]] else f
  }

  /**
    * The files after the first `k` operations of a rotation over `b` backups: remove file `b`,
    * then rename `b-1` to `b`, ..., 1 to 2, and last the live file to 1.
    */
  function AfterOps(f: Files, b: nat, k: nat): Files
    requires b > 0 && k <= b + 1
  {
    if k == 0 then f
    else if k == 1 then Remove(f, b)
    else Rename(AfterOps(f, b, k - 1), b + 1 - k, b + 2 - k)
  }

  datatype Limits = Limits(maxBytes: nat, backups: nat)

  predicate NeedsRotation(f: Files, lim: Limits) {
    lim.maxBytes > 0 && lim.backups > 0 && 0 in f && Size(f[0]) >= lim.maxBytes
  }

  /** The files after a rotation that fails before its operation number `fault`, if that is reached. */
  function Rotated(f: Files, lim: Limits, fault: nat): Files {
    if !NeedsRotation(f, lim) then f
    else AfterOps(f, lim.backups, if fault <= lim.backups then fault else lim.backups + 1)
  }

  predicate RotationFails(f: Files, lim: Limits, fault: nat) {
    NeedsRotation(f, lim) && fault <= lim.backups
  }

  /** The files after a write: rotate, then append unless either fails. */
  function Written(f: Files, lim: Limits, e: Entry, fault: nat, appendFails: bool): Files {
    var g := Rotated(f, lim, fault);
    if RotationFails(f, lim, fault) || appendFails then g else g[0 := Content(g, 0) + [e]]
  }

  // ---------------------------------------------------------------- the writer

  class RoutingLogWriter {
    const limits: Limits
    var files: Files

    constructor (maxBytes: int, backups: int, onDisk: Files)
      ensures files == onDisk
      ensures limits == Limits(if maxBytes < 0 then 0 else maxBytes, if backups < 0 then 0 else backups)
    {
      limits := Limits(if maxBytes < 0 then 0 else maxBytes, if backups < 0 then 0 else backups);
      files := onDisk;
    }

    /** Rotate in place; operation number `fault` raises. */
    method RotateIfNeeded(fault: nat) returns (ok: bool)
      modifies this
      ensures files == Rotated(old(files), limits, fault)
      ensures ok == !RotationFails(old(files), limits, fault)
    {
      if limits.maxBytes == 0 || limits.backups == 0 || 0 !in files {
        return true;
      }
      if Size(files[0]) < limits.maxBytes {
        return true;
      }
      var b := limits.backups;
      if fault == 0 {
        return false;
      }
      if b in files {
        files := Remove(files, b);
      } else {
        assert Remove(files, b) == files;
      }
      var index := b - 1;
      while index > 0
        invariant 0 <= index < b
        invariant fault > b - 1 - index
        invariant files == AfterOps(old(files), b, b - index)
      {
        if fault == b - index {
          return false;
        }
        if index in files {
          files := Rename(files, index, index + 1);
        }
        index := index - 1;
      }
      if fault == b {
        return false;
      }
      LiveUntouched(old(files), b, b);
      files := Rename(files, 0, 1);
      return true;
    }

    /** Best effort: a failing rotation or append leaves the files as they are and reports false. */
    method Write(e: Entry, fault: nat, appendFails: bool) returns (ok: bool)
      modifies this
      ensures files == Written(old(files), limits, e, fault, appendFails)
      ensures ok == (!RotationFails(old(files), limits, fault) && !appendFails)
    {
      var rotated := RotateIfNeeded(fault);
      if !rotated || appendFails {
        return false;
      }
      files := files[0 := Content(files, 0) + [e]];
      return true;
    }
  }

  /** Until its last operation a rotation leaves the live file alone. */
  lemma {:induction false} LiveUntouched(f: Files, b: nat, k: nat)
    requires b > 0 && k <= b
    ensures 0 in AfterOps(f, b, k) <==> 0 in f
    ensures 0 in f ==> AfterOps(f, b, k)[0] == f[0]
  {
    if k > 1 { LiveUntouched(f, b, k - 1); }
  }

  // ---------------------------------------------------------------- what a rotation keeps

  /** Files of equal content at every number up to `b` read the same. */
  lemma {:induction false} RetainedSame(f: Files, g: Files, b: nat)
    requires forall i: nat :: i <= b ==> Content(f, i) == Content(g, i)
    ensures Retained(f, b) == Retained(g, b)
  {
    if b > 0 { RetainedSame(f, g, b - 1); }
  }

  /** Moving file `j - 1` into an empty file `j` does not change what is read. */
  lemma {:induction false} RenameKeepsRetained(f: Files, b: nat, j: nat)
    requires 0 < j <= b && Content(f, j) == []
    ensures Retained(Rename(f, j - 1, j), b) == Retained(f, b)
  {
    var g := Rename(f, j - 1, j);
    if b > j {
      RenameKeepsRetained(f, b - 1, j);
    } else if j == 1 {
      assert Content(f, 1) + Content(f, 0) == Content(g, 1) + Content(g, 0);
    } else {
      RetainedSame(f, g, j - 2);
      assert Retained(f, j - 1) == Content(f, j - 1) + Retained(f, j - 2);
      assert Retained(g, j - 1) == [] + Retained(g, j - 2);
      assert Content(g, j) + ([] + Retained(g, j - 2)) == [] + (Content(f, j - 1) + Retained(f, j - 2));
    }
  }

  /** The next rename's destination is vacant. */
  lemma {:induction false} DestinationVacant(f: Files, b: nat, k: nat)
    requires b > 0 && 1 <= k <= b
    ensures b + 1 - k !in AfterOps(f, b, k)
  {
    if k > 1 { DestinationVacant(f, b, k - 1); }
  }

  /** At every point inside a rotation only the oldest file's entries are missing from what is read. */
  lemma {:induction false} AfterOpsRetained(f: Files, b: nat, k: nat)
    requires b > 0 && k <= b + 1
    ensures Retained(AfterOps(f, b, k), b)
         == if k == 0 then Retained(f, b) else Retained(f, b)[|Content(f, b)|..]
  {
    if k == 1 {
      RetainedSame(f, Remove(f, b), b - 1);
      assert Retained(Remove(f, b), b) == [] + Retained(f, b - 1);
    } else if k > 1 {
      AfterOpsRetained(f, b, k - 1);
      DestinationVacant(f, b, k - 1);
      RenameKeepsRetained(AfterOps(f, b, k - 1), b, b + 2 - k);
    }
  }

  /** A file's size is the sum of its entries' sizes. */
  lemma {:induction false} SizeAdds(s: seq<Entry>, t: seq<Entry>, e: Entry)
    ensures Size(s + t) == Size(s) + Size(t)
    ensures Size([e]) == e.bytes && Size([]) == 0
  {
    assert [e][..0] == [];
    if t == [] {
      assert s + t == s;
    } else {
      assert (s + t)[..|s + t| - 1] == s + t[..|t| - 1];
      SizeAdds(s, t[..|t| - 1], e);
    }
  }

  // ---------------------------------------------------------------- runs

  /** One call of the writer: what it writes and where, if anywhere, it fails. */
  datatype Call = Call(entry: Entry, fault: nat, appendFails: bool)

  /** The files, and the entries that were written so far. */
  datatype State = State(files: Files, written: seq<Entry>)

  predicate Appends(f: Files, lim: Limits, c: Call) {
    !RotationFails(f, lim, c.fault) && !c.appendFails
  }

  function After(lim: Limits, s: State, c: Call): State {
    State(Written(s.files, lim, c.entry, c.fault, c.appendFails),
          if Appends(s.files, lim, c) then s.written + [c.entry] else s.written)
  }

  /** The state after a run of calls that starts with no files. */
  function Run(lim: Limits, calls: seq<Call>): State {
    if calls == [] then State(map[], [])
    else After(lim, Run(lim, calls[..|calls| - 1]), calls[|calls| - 1])
  }

  /** A call writes its entry unless appending fails, or the file has to rotate and one of its operations fails. */
  lemma AppendsIff(f: Files, lim: Limits, c: Call)
    ensures Appends(f, lim, c) <==>
      && !c.appendFails
      && (lim.maxBytes > 0 && lim.backups > 0 && 0 in f && Size(f[0]) >= lim.maxBytes ==> c.fault > lim.backups)
  {
  }

  function Entries(calls: seq<Call>): (entries: seq<Entry>)
    ensures |entries| == |calls| && forall i :: 0 <= i < |calls| ==> entries[i] == calls[i].entry
  {
    seq(|calls|, i requires 0 <= i < |calls| => calls[i].entry)
  }

  /** When nothing fails, every entry is written, in order. */
  lemma {:induction false} FaultlessRunWritesAll(lim: Limits, calls: seq<Call>)
    requires forall i :: 0 <= i < |calls| ==> calls[i].fault > lim.backups && !calls[i].appendFails
    ensures Run(lim, calls).written == Entries(calls)
  {
    if calls != [] {
      var n := |calls| - 1;
      FaultlessRunWritesAll(lim, calls[..n]);
      AppendsIff(Run(lim, calls[..n]).files, lim, calls[n]);
      assert Entries(calls) == Entries(calls[..n]) + [calls[n].entry];
    }
  }

  lemma SuffixOfSuffix(s: seq<Entry>, t: seq<Entry>, n: nat)
    requires IsSuffix(s, t) && n <= |s|
    ensures IsSuffix(s[n..], t)
  {
  }

  lemma SuffixSnoc(s: seq<Entry>, t: seq<Entry>, e: Entry)
    requires IsSuffix(s, t)
    ensures IsSuffix(s + [e], t + [e])
  {
  }

  lemma RotatedRetained(f: Files, lim: Limits, fault: nat)
    ensures Retained(Rotated(f, lim, fault), lim.backups)
         == if NeedsRotation(f, lim) && fault > 0 then Retained(f, lim.backups)[|Content(f, lim.backups)|..]
            else Retained(f, lim.backups)
  {
    if NeedsRotation(f, lim) {
      AfterOpsRetained(f, lim.backups, if fault <= lim.backups then fault else lim.backups + 1);
    }
  }

  lemma {:induction false} AppendRetained(f: Files, b: nat, e: Entry)
    ensures Retained(f[0 := Content(f, 0) + [e]], b) == Retained(f, b) + [e]
  {
    var g := f[0 := Content(f, 0) + [e]];
    if b > 0 {
      AppendRetained(f, b - 1, e);
      assert Content(g, b) + (Retained(f, b - 1) + [e]) == (Content(f, b) + Retained(f, b - 1)) + [e];
    }
  }

  /** What is read after a call, from what was read before it. */
  lemma WrittenRetained(lim: Limits, s: State, c: Call)
    ensures Retained(After(lim, s, c).files, lim.backups)
         == Retained(Rotated(s.files, lim, c.fault), lim.backups)
            + (if Appends(s.files, lim, c) then [c.entry] else [])
  {
    AppendRetained(Rotated(s.files, lim, c.fault), lim.backups, c.entry);
  }

  /**
    * Whatever fails and wherever, what is read after a run is a contiguous suffix, in order,
    * of the entries written.
    */
  lemma {:induction false} RetainsSuffix(lim: Limits, calls: seq<Call>)
    ensures IsSuffix(Retained(Run(lim, calls).files, lim.backups), Run(lim, calls).written)
  {
    if calls == [] {
      RetainedEmpty(lim.backups);
    } else {
      var s := Run(lim, calls[..|calls| - 1]);
      var c := calls[|calls| - 1];
      RetainsSuffix(lim, calls[..|calls| - 1]);
      StepRetainsSuffix(lim, s, c);
    }
  }

  lemma StepRetainsSuffix(lim: Limits, s: State, c: Call)
    requires IsSuffix(Retained(s.files, lim.backups), s.written)
    ensures IsSuffix(Retained(After(lim, s, c).files, lim.backups), After(lim, s, c).written)
  {
    var r := Retained(s.files, lim.backups);
    var r' := Retained(Rotated(s.files, lim, c.fault), lim.backups);
    assert IsSuffix(r', s.written) by {
      RotatedRetained(s.files, lim, c.fault);
      RetainedStartsWithOldest(s.files, lim.backups);
      SuffixOfSuffix(r, s.written, |Content(s.files, lim.backups)|);
    }
    WrittenRetained(lim, s, c);
    if Appends(s.files, lim, c) {
      SuffixSnoc(r', s.written, c.entry);
    } else {
      assert r' + [] == r';
    }
  }

  lemma {:induction false} RetainedEmpty(b: nat)
    ensures Retained(map[], b) == []
  {
    if b > 0 { RetainedEmpty(b - 1); }
  }

  lemma RetainedStartsWithOldest(f: Files, b: nat)
    ensures |Content(f, b)| <= |Retained(f, b)|
  {
  }

  /**
    * The same at every point inside the rotation a further call performs: between any two of
    * its operations the reader still finds a suffix of everything written.
    */
  lemma RetainsSuffixInsideRotation(lim: Limits, calls: seq<Call>, k: nat)
    requires NeedsRotation(Run(lim, calls).files, lim) && k <= lim.backups + 1
    ensures IsSuffix(Retained(AfterOps(Run(lim, calls).files, lim.backups, k), lim.backups), Run(lim, calls).written)
  {
    var f := Run(lim, calls).files;
    RetainsSuffix(lim, calls);
    AfterOpsRetained(f, lim.backups, k);
    RetainedStartsWithOldest(f, lim.backups);
    SuffixOfSuffix(Retained(f, lim.backups), Run(lim, calls).written, |Content(f, lim.backups)|);
  }

  ghost predicate DistinctIds(calls: seq<Call>) {
    forall i, j :: 0 <= i < j < |calls| ==> calls[i].entry.id != calls[j].entry.id
  }

  ghost predicate FromCalls(calls: seq<Call>, e: Entry) {
    exists c :: c in calls && c.entry == e
  }

  lemma {:induction false} WrittenFromCalls(lim: Limits, calls: seq<Call>)
    requires DistinctIds(calls)
    ensures forall e :: e in Run(lim, calls).written ==> FromCalls(calls, e)
    ensures forall i, j :: 0 <= i < j < |Run(lim, calls).written| ==>
      Run(lim, calls).written[i] != Run(lim, calls).written[j]
  {
    if calls != [] {
      var n := |calls| - 1;
      WrittenFromCalls(lim, calls[..n]);
      var w := Run(lim, calls[..n]).written;
      assert calls == calls[..n] + [calls[n]];
      forall e | e in w ensures FromCalls(calls, e) && e != calls[n].entry {
        assert FromCalls(calls[..n], e);
        var c :| c in calls[..n] && c.entry == e;
        var j :| 0 <= j < n && calls[j] == c;
      }
      assert calls[n] in calls;
      assert FromCalls(calls, calls[n].entry);
    }
  }

  /** Distinct entries are read at most once each. */
  lemma NoDuplicateEntries(lim: Limits, calls: seq<Call>)
    requires DistinctIds(calls)
    ensures var r := Retained(Run(lim, calls).files, lim.backups);
      forall i, j :: 0 <= i < j < |r| ==> r[i] != r[j]
  {
    RetainsSuffix(lim, calls);
    WrittenFromCalls(lim, calls);
  }

  // ---------------------------------------------------------------- how much is kept

  /** No call's rotation failed. */
  predicate RotationsSucceed(lim: Limits, calls: seq<Call>) {
    forall i :: 0 <= i < |calls| ==> calls[i].fault > lim.backups
  }

  /** The shape a rotation without failures gives the files. */
  lemma {:induction false} AfterOpsShape(f: Files, b: nat, k: nat, i: nat)
    requires b > 0 && 1 <= k <= b + 1 && i <= b
    ensures var g := AfterOps(f, b, k);
      if i > b + 1 - k then (i in g <==> i - 1 in f) && (i in g ==> g[i] == f[i - 1])
      else if i == b + 1 - k then i !in g
      else (i in g <==> i in f) && (i in g ==> g[i] == f[i])
    decreases k
  {
    if k > 1 {
      AfterOpsShape(f, b, k - 1, i);
      AfterOpsShape(f, b, k - 1, b + 1 - k);
      DestinationVacant(f, b, k - 1);
    }
  }

  /** Backups are full and without gaps. */
  ghost predicate FullBackups(f: Files, lim: Limits) {
    && (forall i: nat :: 1 <= i <= lim.backups && i in f ==> Size(f[i]) >= lim.maxBytes)
    && (forall i: nat :: 1 < i <= lim.backups && i in f ==> i - 1 in f)
  }

  lemma {:induction false} BackupsStayFull(lim: Limits, calls: seq<Call>)
    requires RotationsSucceed(lim, calls)
    ensures FullBackups(Run(lim, calls).files, lim)
  {
    if calls != [] {
      var c := calls[|calls| - 1];
      var f := Run(lim, calls[..|calls| - 1]).files;
      BackupsStayFull(lim, calls[..|calls| - 1]);
      if NeedsRotation(f, lim) {
        var g := AfterOps(f, lim.backups, lim.backups + 1);
        forall i: nat | i <= lim.backups
          ensures if i == 0 then i !in g else (i in g <==> i - 1 in f) && (i in g ==> g[i] == f[i - 1])
        {
          AfterOpsShape(f, lim.backups, lim.backups + 1, i);
        }
        assert FullBackups(g, lim);
      }
    }
  }

  lemma {:induction false} AllBelowExist(f: Files, lim: Limits, i: nat)
    requires FullBackups(f, lim) && lim.backups in f && 1 <= i <= lim.backups
    ensures i in f
    decreases lim.backups - i
  {
    if i < lim.backups {
      AllBelowExist(f, lim, i + 1);
    }
  }

  /**
    * When no rotation fails, a call drops an entry only when every backup exists and each
    * holds at least the size limit; otherwise it drops nothing.
    */
  lemma DropsOnlyWhenFull(lim: Limits, calls: seq<Call>, c: Call)
    requires RotationsSucceed(lim, calls) && c.fault > lim.backups
    ensures var s := Run(lim, calls);
      var kept := Retained(s.files, lim.backups);
      Retained(After(lim, s, c).files, lim.backups) == kept + (if Appends(s.files, lim, c) then [c.entry] else [])
      || (&& NeedsRotation(s.files, lim)
          && forall i: nat :: 1 <= i <= lim.backups ==> i in s.files && Size(s.files[i]) >= lim.maxBytes)
  {
    var s := Run(lim, calls);
    BackupsStayFull(lim, calls);
    RotatedRetained(s.files, lim, c.fault);
    WrittenRetained(lim, s, c);
    if NeedsRotation(s.files, lim) && lim.backups in s.files {
      forall i: nat | 1 <= i <= lim.backups ensures i in s.files {
        AllBelowExist(s.files, lim, i);
      }
    }
  }

  /** With rotation switched off by either limit, nothing is ever dropped. */
  lemma {:induction false} NothingDroppedWithoutRotation(lim: Limits, calls: seq<Call>)
    requires lim.maxBytes == 0 || lim.backups == 0
    ensures Retained(Run(lim, calls).files, lim.backups) == Run(lim, calls).written
  {
    if calls == [] {
      RetainedEmpty(lim.backups);
    } else {
      NothingDroppedWithoutRotation(lim, calls[..|calls| - 1]);
      WrittenRetained(lim, Run(lim, calls[..|calls| - 1]), calls[|calls| - 1]);
    }
  }

  /**
    * With rotation on, and whatever fails, the live file is always smaller than the limit plus
    * its own last entry.
    */
  lemma {:induction false} LiveFileBounded(lim: Limits, calls: seq<Call>)
    requires lim.maxBytes > 0 && lim.backups > 0
    ensures var f := Run(lim, calls).files;
      0 in f && f[0] != [] ==> Size(f[0]) < lim.maxBytes + f[0][|f[0]| - 1].bytes
  {
    if calls != [] {
      var c := calls[|calls| - 1];
      var f := Run(lim, calls[..|calls| - 1]).files;
      LiveFileBounded(lim, calls[..|calls| - 1]);
      var g := Rotated(f, lim, c.fault);
      if NeedsRotation(f, lim) {
        if c.fault <= lim.backups {
          LiveUntouched(f, lim.backups, c.fault);
        } else {
          AfterOpsShape(f, lim.backups, lim.backups + 1, 0);
        }
      }
      assert (Content(g, 0) + [c.entry])[..|Content(g, 0)|] == Content(g, 0);
    }
  }
}
