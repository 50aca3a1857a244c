/** The replicated log of replication/common/log.{h,cc} and log-impl.h.

    The log is a vector of entries whose first entry has opnum `start`.  The value type
    `Log` gives each operation as a function; the class `LogVector` is the vector updated
    in place, each method proved against the function of the same name.  The hash chain
    is off (`useHash` is false wherever the log is constructed), so it is not modelled.
 */
module ReplicaLog {

  datatype Option<+T> = None | Some(value: T)

  datatype Request = Request(clientid: nat, clientreqid: nat, op: string)

  datatype Viewstamp = Viewstamp(view: nat, opnum: nat)

  datatype EntryState = Committed | Prepared

  datatype LogEntry = LogEntry(viewstamp: Viewstamp, state: EntryState, request: Request)

  datatype Log = Log(start: nat, entries: seq<LogEntry>) {

    /** What every constructor and operation keeps: opnums are contiguous from `start`. */
    ghost predicate Valid() {
      && 1 <= start
      && forall k :: 0 <= k < |entries| ==> entries[k].viewstamp.opnum == start + k
    }

    function LastOpnum(): int {
      if entries == [] then start - 1 else entries[|entries| - 1].viewstamp.opnum
    }

    function Find(opnum: nat): Option<LogEntry> {
      if entries == [] || opnum < start || opnum - start > |entries| - 1
      then None
      else Some(entries[opnum - start])
    }

    /** The assertion at the head of Append. */
    predicate CanAppend(vs: Viewstamp) {
      vs.opnum == if entries == [] then start else LastOpnum() + 1
    }

    function Append(vs: Viewstamp, req: Request, state: EntryState): Log {
      this.(entries := entries + [LogEntry(vs, state, req)])
    }

    function SetStatus(opnum: nat, state: EntryState): Log {
      if Find(opnum).None? then this
      else this.(entries := entries[opnum - start := entries[opnum - start].(state := state)])
    }

    /** The assertions of RemoveAfter: there is something to cut, or nothing to do. */
    predicate CanRemoveAfter(opnum: nat) {
      opnum > LastOpnum() || (start <= opnum && opnum - start < |entries|)
    }

    function RemoveAfter(opnum: nat): Log
      requires CanRemoveAfter(opnum)
    {
      if opnum > LastOpnum() then this else this.(entries := entries[..opnum - start])
    }

    function Dump(from: nat): seq<LogEntry> {
      if from <= start then entries
      else if from - start >= |entries| then []
      else entries[from - start..]
    }

    /** Drops the longest prefix of `incoming` whose views match the log; cuts the log at
        the first entry with another view. */
    function FindDivergence(incoming: seq<LogEntry>): (Log, seq<LogEntry>)
      requires Valid()
    {
      if incoming == [] then (this, [])
      else
        var found := Find(incoming[0].viewstamp.opnum);
        if found.None? then (this, incoming)
        else if incoming[0].viewstamp.view != found.value.viewstamp.view then
          (RemoveAfter(incoming[0].viewstamp.opnum), incoming)
        else FindDivergence(incoming[1..])
    }

    function AppendAll(incoming: seq<LogEntry>): Log
      decreases |incoming|
    {
      if incoming == [] then this
      else Append(incoming[0].viewstamp, incoming[0].request, Prepared).AppendAll(incoming[1..])
    }

    function Install(incoming: seq<LogEntry>): Log
      requires Valid()
    {
      var (kept, rest) := FindDivergence(incoming);
      kept.AppendAll(rest)
    }
  }

  lemma AppendKeepsValid(l: Log, vs: Viewstamp, req: Request, state: EntryState)
    requires l.Valid() && l.CanAppend(vs)
    ensures l.Append(vs, req, state).Valid()
  {
  }

  lemma RemoveAfterKeepsValid(l: Log, opnum: nat)
    requires l.Valid() && l.CanRemoveAfter(opnum)
    ensures l.RemoveAfter(opnum).Valid()
    ensures opnum <= l.LastOpnum() + 1 ==> l.RemoveAfter(opnum).LastOpnum() == opnum - 1
  {
  }

  function Requests(entries: seq<LogEntry>): (r: seq<Request>)
    ensures |r| == |entries|
    ensures forall k :: 0 <= k < |r| ==> r[k] == entries[k].request
  {
    seq(|entries|, k requires 0 <= k < |entries| => entries[k].request)
  }
}
