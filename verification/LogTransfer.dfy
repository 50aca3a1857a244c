/** The log as a vector updated in place, and what a transfer of its tail achieves. */
module LogTransfer {
  import opened ReplicaLog

  /** Class Log of replication/common/log.h.  The assertions of the source are what the
      methods require of their callers. */
  class LogVector {
    var start: nat
    var entries: seq<LogEntry>

    ghost function Value(): Log
      reads this
    {
      Log(start, entries)
    }

    constructor (start: nat)
      requires 1 <= start
      ensures Value() == Log(start, []) && Value().Valid()
    {
      this.start := start;
      entries := [];
    }

    method LastOpnum() returns (r: int)
      ensures r == Value().LastOpnum()
      ensures Value().Valid() ==> r == start + |entries| - 1
    {
      if entries == [] {
        return start - 1;
      }
      r := entries[|entries| - 1].viewstamp.opnum;
    }

    method Find(opnum: nat) returns (r: Option<LogEntry>)
      requires Value().Valid()
      ensures r == Value().Find(opnum)
      ensures r.Some? <==> start <= opnum < start + |entries|
      ensures r.Some? ==> r.value in entries && r.value.viewstamp.opnum == opnum
    {
      if entries == [] {
        return None;
      }
      if opnum < start {
        return None;
      }
      if opnum - start > |entries| - 1 {
        return None;
      }
      r := Some(entries[opnum - start]);
    }

    method Append(vs: Viewstamp, req: Request, state: EntryState)
      requires Value().Valid() && Value().CanAppend(vs)
      modifies this`entries
      ensures Value() == old(Value()).Append(vs, req, state)
      ensures Value().Valid() && Value().LastOpnum() == vs.opnum
    {
      AppendKeepsValid(Value(), vs, req, state);
      entries := entries + [LogEntry(vs, state, req)];
    }

    method SetStatus(opnum: nat, state: EntryState) returns (found: bool)
      requires Value().Valid()
      modifies this`entries
      ensures Value() == old(Value()).SetStatus(opnum, state) && Value().Valid()
      ensures found == (start <= opnum < start + |old(entries)|)
    {
      if opnum < start || opnum >= start + |entries| {
        return false;
      }
      entries := entries[opnum - start := entries[opnum - start].(state := state)];
      found := true;
    }

    method RemoveAfter(opnum: nat)
      requires Value().Valid() && start <= opnum
      modifies this`entries
      ensures Value() == old(Value()).RemoveAfter(opnum) && Value().Valid()
      ensures opnum <= old(Value()).LastOpnum() ==> Value().LastOpnum() == opnum - 1
    {
      var last := LastOpnum();
      if opnum > last {
        return;
      }
      entries := entries[..opnum - start];
    }

    method Dump(from: nat) returns (out: seq<LogEntry>)
      requires Value().Valid()
      ensures out == Value().Dump(from)
    {
      out := [];
      var first := if from < start then start else from;
      var last := LastOpnum();
      DumpIsSlice(Value(), from, first);
      if first > last {
        return;
      }
      hide Log.Dump, Log.LastOpnum;
      var i := first;
      while i <= last
        invariant first <= i <= last + 1
        invariant out == entries[first - start..i - start]
      {
        var e := Find(i);
        out := out + [e.value];
        i := i + 1;
      }
    }

    method Install(incoming: seq<LogEntry>)
      requires Value().Valid() && Fits(Value(), incoming)
      modifies this`entries
      ensures Value() == old(Value()).Install(incoming) && Value().Valid()
    {
      var it := 0;
      while it < |incoming|
        invariant it <= |incoming| && entries == old(entries)
        invariant Fits(Value(), incoming[it..])
        invariant old(Value()).FindDivergence(incoming) == Value().FindDivergence(incoming[it..])
      {
        var e := incoming[it];
        assert incoming[it..][0] == e && incoming[it..][1..] == incoming[it + 1..];
        var found := Find(e.viewstamp.opnum);
        if found.None? {
          break;
        }
        if e.viewstamp.view != found.value.viewstamp.view {
          RemoveAfter(e.viewstamp.opnum);
          break;
        }
        FitsTail(Value(), incoming[it..]);
        it := it + 1;
      }
      ghost var kept, rest := Value(), incoming[it..];
      while it < |incoming|
        invariant it <= |incoming|
        invariant Value().Valid() && Continues(Value(), incoming[it..])
        invariant kept.AppendAll(rest) == Value().AppendAll(incoming[it..])
      {
        var e := incoming[it];
        assert incoming[it..][0] == e && incoming[it..][1..] == incoming[it + 1..];
        Append(e.viewstamp, e.request, Prepared);
        it := it + 1;
      }
    }
  }

  ghost predicate Numbered(entries: seq<LogEntry>, first: nat) {
    forall k :: 0 <= k < |entries| ==> entries[k].viewstamp.opnum == first + k
  }

  /** `incoming` has contiguous opnums and starts inside the log or right behind it. */
  ghost predicate Fits(l: Log, incoming: seq<LogEntry>) {
    && (incoming != [] ==> Numbered(incoming, incoming[0].viewstamp.opnum))
    && (incoming != [] ==> l.start <= incoming[0].viewstamp.opnum <= l.start + |l.entries|)
  }

  /** `incoming` has contiguous opnums and starts right behind the log. */
  ghost predicate Continues(l: Log, incoming: seq<LogEntry>) {
    Numbered(incoming, l.start + |l.entries|)
  }

  lemma FitsTail(l: Log, incoming: seq<LogEntry>)
    requires l.Valid() && Fits(l, incoming) && incoming != []
    requires l.Find(incoming[0].viewstamp.opnum).Some?
    ensures Fits(l, incoming[1..])
  {
    var rest := incoming[1..];
    assert forall k :: 0 <= k < |rest| ==> rest[k] == incoming[k + 1];
  }

  /** The two logs hold the same request wherever they hold the same viewstamp. */
  ghost predicate RequestsAgree(a: seq<LogEntry>, b: seq<LogEntry>) {
    forall x, y :: x in a && y in b && x.viewstamp == y.viewstamp ==> x.request == y.request
  }

  ghost predicate SameOperation(a: LogEntry, b: LogEntry) {
    a.viewstamp == b.viewstamp && a.request == b.request
  }

  /** `l` ends with the operations of `incoming`, and is `was` before them. */
  ghost predicate EndsWith(l: Log, was: Log, incoming: seq<LogEntry>, first: nat) {
    && l.start == was.start <= first
    && l.start + |l.entries| == first + |incoming|
    && first - l.start <= |was.entries|
    && l.entries[..first - l.start] == was.entries[..first - l.start]
    && forall k :: 0 <= k < |incoming| ==> SameOperation(l.entries[first - l.start + k], incoming[k])
  }

  lemma {:induction false} AppendAllEffect(l: Log, incoming: seq<LogEntry>)
    requires l.Valid() && Continues(l, incoming)
    ensures l.AppendAll(incoming).Valid()
    ensures EndsWith(l.AppendAll(incoming), l, incoming, l.start + |l.entries|)
    decreases |incoming|
  {
    if incoming != [] {
      var e := incoming[0];
      var l1 := l.Append(e.viewstamp, e.request, Prepared);
      AppendKeepsValid(l, e.viewstamp, e.request, Prepared);
      assert forall k :: 0 <= k < |incoming[1..]| ==> incoming[1..][k] == incoming[k + 1];
      AppendAllEffect(l1, incoming[1..]);
      var t := l.AppendAll(incoming);
      assert t.entries[..|l1.entries|][..|l.entries|] == l.entries;
      forall k | 0 <= k < |incoming| ensures SameOperation(t.entries[|l.entries| + k], incoming[k]) {
        if k > 0 {
          assert incoming[1..][k - 1] == incoming[k];
        } else {
          assert t.entries[..|l1.entries|][|l.entries|] == l1.entries[|l.entries|];
        }
      }
    }
  }

  /** The first operation of `incoming` was already in the log. */
  lemma EndsWithOneMore(t: Log, l: Log, incoming: seq<LogEntry>, first: nat)
    requires incoming != [] && l.start <= first < l.start + |l.entries|
    requires EndsWith(t, l, incoming[1..], first + 1)
    requires SameOperation(l.entries[first - l.start], incoming[0])
    ensures EndsWith(t, l, incoming, first)
  {
    var i := first - l.start;
    assert t.entries[..i] == t.entries[..i + 1][..i];
    assert l.entries[..i] == l.entries[..i + 1][..i];
    assert t.entries[i] == t.entries[..i + 1][i] == l.entries[..i + 1][i];
    forall k | 0 <= k < |incoming| ensures SameOperation(t.entries[i + k], incoming[k]) {
      if k > 0 {
        assert incoming[k] == incoming[1..][k - 1];
        assert SameOperation(t.entries[i + 1 + (k - 1)], incoming[1..][k - 1]);
      }
    }
  }

  /** Install at an opnum whose view differs: the log is cut there and refilled. */
  lemma InstallDiverging(l: Log, incoming: seq<LogEntry>)
    requires l.Valid() && Fits(l, incoming) && incoming != []
    requires l.Find(incoming[0].viewstamp.opnum).Some?
    requires l.Find(incoming[0].viewstamp.opnum).value.viewstamp.view != incoming[0].viewstamp.view
    ensures l.Install(incoming).Valid()
    ensures EndsWith(l.Install(incoming), l, incoming, incoming[0].viewstamp.opnum)
  {
    var op := incoming[0].viewstamp.opnum;
    var cut := l.RemoveAfter(op);
    assert cut == l.(entries := l.entries[..op - l.start]);
    RemoveAfterKeepsValid(l, op);
    assert l.Install(incoming) == cut.AppendAll(incoming);
    hide Log.FindDivergence, Log.Install, Log.RemoveAfter, Log.AppendAll;
    AppendAllEffect(cut, incoming);
  }

  /** Install at an opnum whose view matches: the entry is kept and the rest installed. */
  lemma InstallMatching(l: Log, incoming: seq<LogEntry>)
    requires l.Valid() && Fits(l, incoming) && incoming != []
    requires RequestsAgree(l.entries, incoming)
    requires l.Find(incoming[0].viewstamp.opnum).Some?
    requires l.Find(incoming[0].viewstamp.opnum).value.viewstamp.view == incoming[0].viewstamp.view
    ensures l.Install(incoming) == l.Install(incoming[1..])
    ensures Fits(l, incoming[1..]) && RequestsAgree(l.entries, incoming[1..])
    ensures l.Find(incoming[0].viewstamp.opnum).Some?
    ensures SameOperation(l.entries[incoming[0].viewstamp.opnum - l.start], incoming[0])
    ensures |incoming| > 1 ==> incoming[1].viewstamp.opnum == incoming[0].viewstamp.opnum + 1
  {
    FitsTail(l, incoming);
    hide Log.AppendAll, Log.RemoveAfter;
    assert forall x :: x in incoming[1..] ==> x in incoming;
  }

  /** Install leaves a log that ends exactly with the operations it was given, provided the
      log is not longer than them and agrees with them on requests. */
  lemma {:induction false} InstallEffect(l: Log, incoming: seq<LogEntry>)
    requires l.Valid() && Fits(l, incoming) && incoming != []
    requires RequestsAgree(l.entries, incoming)
    requires l.start + |l.entries| <= incoming[0].viewstamp.opnum + |incoming|
    ensures l.Install(incoming).Valid()
    ensures EndsWith(l.Install(incoming), l, incoming, incoming[0].viewstamp.opnum)
    decreases |incoming|
  {
    var e := incoming[0];
    var op := e.viewstamp.opnum;
    var found := l.Find(op);
    if found.None? {
      hide Log.RemoveAfter;
      AppendAllEffect(l, incoming);
    } else if e.viewstamp.view != found.value.viewstamp.view {
      InstallDiverging(l, incoming);
    } else {
      var rest := incoming[1..];
      InstallMatching(l, incoming);
      if rest == [] {
        assert l.Install(rest) == l;
        assert EndsWith(l, l, rest, op + 1);
      } else {
        InstallEffect(l, rest);
      }
      hide *;
      EndsWithOneMore(l.Install(incoming), l, incoming, op);
    }
  }

  ghost function FirstDumped(sender: Log, from: nat): nat {
    if from < sender.start then sender.start else from
  }

  /** What the receiver holds after the cut agrees with what the sender dumps. */
  lemma TransferAgrees(receiver: Log, sender: Log, from: nat)
    requires receiver.Valid() && sender.Valid()
    requires RequestsAgree(receiver.entries, sender.entries)
    requires FirstDumped(sender, from) <= sender.LastOpnum()
    requires receiver.start <= sender.LastOpnum() + 1
    ensures receiver.CanRemoveAfter(sender.LastOpnum() + 1)
    ensures RequestsAgree(receiver.RemoveAfter(sender.LastOpnum() + 1).entries, sender.Dump(from))
  {
    CutShape(receiver, sender.LastOpnum() + 1);
    DumpShape(sender, from);
    var m := sender.LastOpnum() + 1 - receiver.start;
    var n := FirstDumped(sender, from) - sender.start;
    PartsAgree(receiver.entries, sender.entries, if m < |receiver.entries| then m else |receiver.entries|, n);
  }

  lemma DumpIsSlice(l: Log, from: nat, first: nat)
    requires l.Valid() && first == FirstDumped(l, from)
    ensures l.Dump(from) ==
      if first > l.LastOpnum() then [] else l.entries[first - l.start..l.LastOpnum() + 1 - l.start]
  {
  }

  lemma LastIsCount(l: Log)
    requires l.Valid()
    ensures l.LastOpnum() == l.start + |l.entries| - 1
  {
  }

  lemma CutShape(l: Log, opnum: nat)
    requires l.Valid() && l.start <= opnum
    ensures l.CanRemoveAfter(opnum)
    ensures
      var cut := l.RemoveAfter(opnum);
      && cut.Valid() && cut.start == l.start
      && cut.entries == if opnum < l.start + |l.entries| then l.entries[..opnum - l.start] else l.entries
  {
    RemoveAfterKeepsValid(l, opnum);
  }

  lemma DumpShape(l: Log, from: nat)
    requires l.Valid() && FirstDumped(l, from) <= l.LastOpnum()
    ensures
      var first := FirstDumped(l, from);
      var dump := l.Dump(from);
      && l.start <= first && dump == l.entries[first - l.start..]
      && dump != [] && dump[0].viewstamp.opnum == first && Numbered(dump, first)
  {
  }

  lemma PartsAgree(a: seq<LogEntry>, b: seq<LogEntry>, m: nat, n: nat)
    requires RequestsAgree(a, b) && m <= |a| && n <= |b|
    ensures RequestsAgree(a[..m], b[n..])
  {
  }

  /** `t` is the sender from `first` on and the receiver before it. */
  ghost predicate Transferred(t: Log, receiver: Log, sender: Log, first: nat) {
    && t.Valid() && t.LastOpnum() == sender.LastOpnum()
    && (forall op :: first <= op <= sender.LastOpnum() ==>
          && t.Find(op).Some? && sender.Find(op).Some?
          && SameOperation(t.Find(op).value, sender.Find(op).value))
    && (forall op :: receiver.start <= op < first ==> t.Find(op) == receiver.Find(op))
  }

  /** Log transfer: cutting the receiver behind the sender's last operation and installing
      what the sender dumps makes the two logs the same from the first dumped operation on,
      and changes nothing before it. */
  lemma TransferMakesEqual(receiver: Log, sender: Log, from: nat)
    requires receiver.Valid() && sender.Valid()
    requires RequestsAgree(receiver.entries, sender.entries)
    requires receiver.start <= FirstDumped(sender, from) <= receiver.LastOpnum() + 1
    requires FirstDumped(sender, from) <= sender.LastOpnum()
    ensures receiver.CanRemoveAfter(sender.LastOpnum() + 1)
    ensures
      var cut := receiver.RemoveAfter(sender.LastOpnum() + 1);
      cut.Valid() && Transferred(cut.Install(sender.Dump(from)), receiver, sender, FirstDumped(sender, from))
  {
    hide *;
    var first := FirstDumped(sender, from);
    LastIsCount(receiver);
    LastIsCount(sender);
    CutShape(receiver, sender.LastOpnum() + 1);
    DumpShape(sender, from);
    TransferAgrees(receiver, sender, from);
    var cut := receiver.RemoveAfter(sender.LastOpnum() + 1);
    InstallDump(cut, receiver, sender, sender.Dump(from), first);
  }

  lemma InstallDump(cut: Log, receiver: Log, sender: Log, dump: seq<LogEntry>, first: nat)
    requires cut.Valid() && receiver.Valid() && sender.Valid()
    requires receiver.start == cut.start <= first <= cut.start + |cut.entries| <= first + |dump|
    requires cut.entries <= receiver.entries
    requires sender.start <= first <= sender.LastOpnum()
    requires dump == sender.entries[first - sender.start..]
    requires dump != [] && dump[0].viewstamp.opnum == first && Numbered(dump, first)
    requires RequestsAgree(cut.entries, dump)
    ensures Transferred(cut.Install(dump), receiver, sender, first)
  {
    hide Log.Install, Log.Valid, RequestsAgree, Transferred, Numbered;
    InstallEffect(cut, dump);
    EndsWithIsEqual(cut.Install(dump), cut, receiver, sender, first);
  }

  lemma EndsWithIsEqual(t: Log, cut: Log, receiver: Log, sender: Log, first: nat)
    requires t.Valid() && cut.Valid() && receiver.Valid() && sender.Valid()
    requires sender.start <= first <= sender.LastOpnum()
    requires receiver.start == cut.start <= first <= cut.start + |cut.entries| && cut.entries <= receiver.entries
    requires EndsWith(t, cut, sender.entries[first - sender.start..], first)
    ensures Transferred(t, receiver, sender, first)
  {
    var dump := sender.entries[first - sender.start..];
    forall op | first <= op <= sender.LastOpnum()
      ensures t.Find(op).Some? && sender.Find(op).Some? && SameOperation(t.Find(op).value, sender.Find(op).value)
    {
      assert SameOperation(t.entries[first - t.start + (op - first)], dump[op - first]);
    }
    forall op | receiver.start <= op < first ensures t.Find(op) == receiver.Find(op) {
      assert t.entries[op - t.start] == t.entries[..first - t.start][op - t.start];
      assert cut.entries[op - t.start] == cut.entries[..first - t.start][op - t.start];
    }
  }
}
