/**
 * `services/mongo_service.py`: the run ledger. Every stage of the
 * publication of a catalog writes one record; the cleanup reads them back to
 * decide which source files may be deleted. The MongoDB collection is a
 * sequence of records in insertion order, and `client` being set is the
 * `connected` flag.
 */
module Ledger {
  import opened Wrappers

  /** One document of the collection; the timestamp is left out. */
  datatype Record = Record(executionId: string, fileName: string, operation: string,
                           status: string, details: map<string, string>)

  /** One entry of the result of `get_files_to_delete`. */
  datatype FileFlags = FileFlags(fileName: string, canDelete: bool)

  /** The three stages whose success records a file needs. */
  const Stages: seq<string> := ["local", "drive", "ftp"]

  /** `collection.find({'executionId': exec})`: the records of one
      execution, in collection order. */
  function ForExecution(records: seq<Record>, exec: string): (r: seq<Record>)
    ensures forall x :: x in r <==> x in records && x.executionId == exec
    ensures |r| <= |records|
  {
    if records == [] then []
    else
      var rest := ForExecution(records[..|records| - 1], exec);
      var last := records[|records| - 1];
      assert records == records[..|records| - 1] + [last];
      if last.executionId == exec then rest + [last] else rest
  }

  /** The filter of `delete_many`: an absent or empty name selects every
      record of the execution. */
  predicate Matches(r: Record, exec: string, name: Option<string>) {
    r.executionId == exec && (name.None? || name.value == "" || r.fileName == name.value)
  }

  /** The collection after `delete_many`. */
  function Without(records: seq<Record>, exec: string, name: Option<string>): (r: seq<Record>)
    ensures forall x :: x in r <==> x in records && !Matches(x, exec, name)
    ensures |r| <= |records|
  {
    if records == [] then []
    else
      var rest := Without(records[..|records| - 1], exec, name);
      var last := records[|records| - 1];
      assert records == records[..|records| - 1] + [last];
      if Matches(last, exec, name) then rest else rest + [last]
  }

  /** Record `r` reports that stage `op` of file `name` succeeded. */
  predicate IsSuccess(r: Record, name: string, op: string) {
    r.fileName == name && r.status == "success" && r.operation == op
  }

  /** Some record in `logs` reports that stage `op` of `name` succeeded. */
  predicate HasSuccess(logs: seq<Record>, name: string, op: string) {
    logs != [] && (HasSuccess(logs[..|logs| - 1], name, op) || IsSuccess(logs[|logs| - 1], name, op))
  }

  /** `HasSuccess` is the existence of a success record. */
  lemma {:induction false} HasSuccessExists(logs: seq<Record>, name: string, op: string)
    ensures HasSuccess(logs, name, op) <==> exists i :: 0 <= i < |logs| && IsSuccess(logs[i], name, op)
  {
    if logs != [] {
      var front := logs[..|logs| - 1];
      HasSuccessExists(front, name, op);
      assert forall i :: 0 <= i < |front| ==> front[i] == logs[i];
      if HasSuccess(front, name, op) {
        var i :| 0 <= i < |front| && IsSuccess(front[i], name, op);
        assert IsSuccess(logs[i], name, op);
      }
    }
  }

  /** `data['local'] and data['drive'] and data['ftp']`. */
  predicate CanDelete(logs: seq<Record>, name: string) {
    HasSuccess(logs, name, "local") && HasSuccess(logs, name, "drive") && HasSuccess(logs, name, "ftp")
  }

  /** The keys of `file_status`: the non-empty file names of `logs`, each
      once, in order of first appearance. */
  function FileNames(logs: seq<Record>): (names: seq<string>)
    ensures forall n :: n in names <==> n != "" && exists i :: 0 <= i < |logs| && logs[i].fileName == n
    ensures forall i, j :: 0 <= i < j < |names| ==> names[i] != names[j]
  {
    if logs == [] then []
    else
      var prev := FileNames(logs[..|logs| - 1]);
      var n := logs[|logs| - 1].fileName;
      assert forall i :: 0 <= i < |logs| - 1 ==> logs[..|logs| - 1][i] == logs[i];
      if n == "" || n in prev then prev else prev + [n]
  }

  /** The list `get_files_to_delete` returns for the records of `logs`. */
  function FilesToDelete(logs: seq<Record>): (r: seq<FileFlags>)
    ensures |r| == |FileNames(logs)|
    ensures forall i :: 0 <= i < |r| ==> r[i].fileName == FileNames(logs)[i]
    ensures forall i :: 0 <= i < |r| ==> (r[i].canDelete <==> CanDelete(logs, r[i].fileName))
  {
    var names := FileNames(logs);
    seq(|names|, i requires 0 <= i < |names| => FileFlags(names[i], CanDelete(logs, names[i])))
  }

  /** The three flags of one `file_status` entry. */
  datatype Flags = Flags(local: bool, drive: bool, ftp: bool)

  /** The flags `file_status` holds for `name` after the loop read `logs`. */
  function FlagsOf(logs: seq<Record>, name: string): Flags {
    Flags(HasSuccess(logs, name, "local"), HasSuccess(logs, name, "drive"), HasSuccess(logs, name, "ftp"))
  }

  class MongoService {
    /** `self.client` is set. */
    var connected: bool
    /** The collection, in insertion order. */
    var records: seq<Record>

    /** `__init__`: `reachable` is the outcome of the ping in `_connect`. */
    constructor(reachable: bool)
      ensures connected == reachable && records == []
    {
      connected := reachable;
      records := [];
    }

    /** `insert_log`: refused when disconnected, otherwise one record is
        appended; absent details become the empty dictionary. */
    method InsertLog(exec: string, fileName: string, operation: string, status: string,
                     details: Option<map<string, string>>) returns (ok: bool)
      modifies this
      ensures connected == old(connected)
      ensures ok == connected
      ensures !connected ==> records == old(records)
      ensures connected ==> records == old(records) + [Record(exec, fileName, operation, status, details.GetOr(map[]))]
    {
      if !connected {
        return false;
      }
      records := records + [Record(exec, fileName, operation, status, details.GetOr(map[]))];
      ok := true;
    }

    /** `get_logs_by_execution`. */
    method GetLogsByExecution(exec: string) returns (logs: seq<Record>)
      ensures connected ==> logs == ForExecution(records, exec)
      ensures !connected ==> logs == []
    {
      if !connected {
        return [];
      }
      logs := ForExecution(records, exec);
    }

    /** `delete_logs`: removes the records that match and returns how many. */
    method DeleteLogs(exec: string, fileName: Option<string>) returns (deleted: nat)
      modifies this
      ensures connected == old(connected)
      ensures !connected ==> records == old(records) && deleted == 0
      ensures connected ==> records == Without(old(records), exec, fileName)
      ensures connected ==> deleted == |old(records)| - |records|
    {
      if !connected {
        return 0;
      }
      var kept := Without(records, exec, fileName);
      deleted := |records| - |kept|;
      records := kept;
    }

    /** `get_files_to_delete`: groups the records of the execution by file
        name and reports, per file, whether all three stages succeeded. */
    method GetFilesToDelete(exec: string) returns (files: seq<FileFlags>)
      ensures connected ==> files == FilesToDelete(ForExecution(records, exec))
      ensures !connected ==> files == []
    {
      var logs := GetLogsByExecution(exec);
      if logs == [] {
        return [];
      }
      var order, status := GroupByFile(logs);
      files := Summary(order, status);
      assert files == FilesToDelete(logs);
    }
  }

  /** The loop of `get_files_to_delete` that fills `file_status`: the keys
      in insertion order and, per key, the flags its success records set. */
  method GroupByFile(logs: seq<Record>) returns (order: seq<string>, status: map<string, Flags>)
    ensures order == FileNames(logs)
    ensures forall n :: n in status <==> n in order
    ensures forall n :: n in status ==> status[n] == FlagsOf(logs, n)
  {
    order, status := [], map[];
    var k := 0;
    while k < |logs|
      invariant 0 <= k <= |logs|
      invariant order == FileNames(logs[..k])
      invariant forall n :: n in status <==> n in order
      invariant forall n :: n in status ==> status[n] == FlagsOf(logs[..k], n)
    {
      var log := logs[k];
      assert logs[..k + 1] == logs[..k] + [log];
      FileNamesStep(logs[..k], log);
      FlagsOfStep(logs[..k], log);
      if log.fileName != "" {
        var name := log.fileName;
        if name !in status {
          FlagsOfAbsent(logs[..k], name);
          status := status[name := Flags(false, false, false)];
          order := order + [name];
        }
        var f := status[name];
        if log.status == "success" {
          if log.operation == "local" {
            f := f.(local := true);
          } else if log.operation == "drive" {
            f := f.(drive := true);
          } else if log.operation == "ftp" {
            f := f.(ftp := true);
          }
        }
        status := status[name := f];
      }
      k := k + 1;
    }
    assert logs[..k] == logs;
  }

  /** The final comprehension of `get_files_to_delete`: one entry per key of
      `file_status`, in key order. */
  function Summary(order: seq<string>, status: map<string, Flags>): (r: seq<FileFlags>)
    requires forall n :: n in order ==> n in status
    ensures |r| == |order|
    ensures forall i :: 0 <= i < |order| ==>
              r[i] == FileFlags(order[i], status[order[i]].local && status[order[i]].drive && status[order[i]].ftp)
  {
    seq(|order|, i requires 0 <= i < |order| =>
      FileFlags(order[i], status[order[i]].local && status[order[i]].drive && status[order[i]].ftp))
  }

  /** A name without records has every flag false. */
  lemma FlagsOfAbsent(logs: seq<Record>, name: string)
    requires forall i :: 0 <= i < |logs| ==> logs[i].fileName != name
    ensures FlagsOf(logs, name) == Flags(false, false, false)
  {
    HasSuccessExists(logs, name, "local");
    HasSuccessExists(logs, name, "drive");
    HasSuccessExists(logs, name, "ftp");
  }

  /** One more record adds its file name when it is new and not empty. */
  lemma FileNamesStep(logs: seq<Record>, log: Record)
    ensures FileNames(logs + [log]) ==
              if log.fileName == "" || log.fileName in FileNames(logs) then FileNames(logs)
              else FileNames(logs) + [log.fileName]
  {
    assert (logs + [log])[..|logs|] == logs;
  }

  /** One more record changes the flags of its own file only, and only the
      flag of its stage when it is a success. */
  lemma FlagsOfStep(logs: seq<Record>, log: Record)
    ensures forall n :: n != log.fileName ==> FlagsOf(logs + [log], n) == FlagsOf(logs, n)
    ensures FlagsOf(logs + [log], log.fileName) ==
              var f := FlagsOf(logs, log.fileName);
              if log.status != "success" then f
              else if log.operation == "local" then f.(local := true)
              else if log.operation == "drive" then f.(drive := true)
              else if log.operation == "ftp" then f.(ftp := true)
              else f
  {
    assert (logs + [log])[..|logs|] == logs;
  }

  /** A file can be deleted exactly when the records hold a success for each
      of `local`, `drive` and `ftp`. */
  lemma CanDeleteMeans(logs: seq<Record>, name: string)
    ensures CanDelete(logs, name) <==>
              (exists i :: 0 <= i < |logs| && IsSuccess(logs[i], name, "local")) &&
              (exists i :: 0 <= i < |logs| && IsSuccess(logs[i], name, "drive")) &&
              (exists i :: 0 <= i < |logs| && IsSuccess(logs[i], name, "ftp"))
  {
    HasSuccessExists(logs, name, "local");
    HasSuccessExists(logs, name, "drive");
    HasSuccessExists(logs, name, "ftp");
  }

  /** `canDelete` depends on which records exist, not on their order or
      repetition. */
  lemma CanDeleteOrderFree(logs: seq<Record>, other: seq<Record>, name: string)
    requires forall x :: x in logs <==> x in other
    ensures CanDelete(logs, name) <==> CanDelete(other, name)
  {
    SameSuccess(logs, other, name, "local");
    SameSuccess(logs, other, name, "drive");
    SameSuccess(logs, other, name, "ftp");
  }

  lemma SameSuccess(logs: seq<Record>, other: seq<Record>, name: string, op: string)
    requires forall x :: x in logs <==> x in other
    ensures HasSuccess(logs, name, op) <==> HasSuccess(other, name, op)
  {
    HasSuccessExists(logs, name, op);
    HasSuccessExists(other, name, op);
    if i :| 0 <= i < |logs| && IsSuccess(logs[i], name, op) {
      assert logs[i] in other;
      var j :| 0 <= j < |other| && other[j] == logs[i];
    }
    if i :| 0 <= i < |other| && IsSuccess(other[i], name, op) {
      assert other[i] in logs;
      var j :| 0 <= j < |logs| && logs[j] == other[i];
    }
  }

  /** An error record, or one for an operation outside the three stages,
      changes no flag. */
  lemma IrrelevantRecordKeepsFlags(logs: seq<Record>, r: Record, name: string)
    requires r.status != "success" || r.operation !in Stages
    ensures FlagsOf(logs + [r], name) == FlagsOf(logs, name)
  {
    FlagsOfStep(logs, r);
  }

  /** Flags are only ever set: more records never clear one. */
  lemma FlagsMonotone(logs: seq<Record>, r: Record, name: string, op: string)
    requires HasSuccess(logs, name, op)
    ensures HasSuccess(logs + [r], name, op)
  {
    assert (logs + [r])[..|logs|] == logs;
  }

  /** The keys of `file_status` come in order of first appearance: the name
      at position `i` occurs in a record before any record of the name at a
      later position `j`. */
  lemma {:induction false} FileNamesFirstAppearance(logs: seq<Record>, i: nat, j: nat)
    requires i < j < |FileNames(logs)|
    ensures exists p :: 0 <= p < |logs| && logs[p].fileName == FileNames(logs)[i] &&
              forall q :: 0 <= q <= p ==> logs[q].fileName != FileNames(logs)[j]
  {
    var front := logs[..|logs| - 1];
    var prev := FileNames(front);
    var names := FileNames(logs);
    assert forall q :: 0 <= q < |front| ==> front[q] == logs[q];
    if j < |prev| {
      assert names[..|prev|] == prev;
      FileNamesFirstAppearance(front, i, j);
      var p :| 0 <= p < |front| && front[p].fileName == prev[i] &&
               forall q :: 0 <= q <= p ==> front[q].fileName != prev[j];
      assert logs[p].fileName == names[i];
    } else {
      assert names == prev + [logs[|logs| - 1].fileName];
      assert names[i] in prev;
      var p :| 0 <= p < |front| && front[p].fileName == prev[i];
      assert names[j] !in prev;
      assert names[j] != "";
      assert forall q :: 0 <= q < |front| ==> front[q].fileName != names[j];
      assert logs[p].fileName == names[i];
    }
  }

  /** A record of execution `exec` appended to the collection is the last
      record of that execution; one of another execution is invisible. */
  lemma ForExecutionAppend(records: seq<Record>, r: Record, exec: string)
    ensures ForExecution(records + [r], exec) ==
              if r.executionId == exec then ForExecution(records, exec) + [r] else ForExecution(records, exec)
  {
    assert (records + [r])[..|records|] == records;
  }

  /** Selecting distributes over concatenation: the selection keeps the
      collection's order. */
  lemma {:induction false} ForExecutionConcat(a: seq<Record>, b: seq<Record>, exec: string)
    ensures ForExecution(a + b, exec) == ForExecution(a, exec) + ForExecution(b, exec)
    decreases |b|
  {
    if b == [] {
      assert a + b == a;
    } else {
      var front, last := b[..|b| - 1], b[|b| - 1];
      assert (a + b)[..|a + b| - 1] == a + front;
      ForExecutionConcat(a, front, exec);
    }
  }

  /** Deleting distributes over concatenation: the records that remain keep
      their order. */
  lemma {:induction false} WithoutConcat(a: seq<Record>, b: seq<Record>, exec: string, name: Option<string>)
    ensures Without(a + b, exec, name) == Without(a, exec, name) + Without(b, exec, name)
    decreases |b|
  {
    if b == [] {
      assert a + b == a;
    } else {
      var front, last := b[..|b| - 1], b[|b| - 1];
      assert (a + b)[..|a + b| - 1] == a + front && (a + b)[|a + b| - 1] == last;
      WithoutConcat(a, front, exec, name);
      assert b[..|b| - 1] == front;
      if Matches(last, exec, name) {
        assert Without(b, exec, name) == Without(front, exec, name);
      } else {
        assert Without(b, exec, name) == Without(front, exec, name) + [last];
      }
    }
  }

  /** The selection keeps every copy of a record of the execution and no
      copy of any other. */
  lemma {:induction false} ForExecutionCounts(records: seq<Record>, exec: string)
    ensures forall x :: multiset(ForExecution(records, exec))[x] ==
                          if x.executionId == exec then multiset(records)[x] else 0
    decreases |records|
  {
    if records != [] {
      var front, last := records[..|records| - 1], records[|records| - 1];
      ForExecutionCounts(front, exec);
      assert records == front + [last];
    }
  }

  /** `delete_many` removes every copy of a matching record and keeps every
      copy of the others. */
  lemma {:induction false} WithoutCounts(records: seq<Record>, exec: string, name: Option<string>)
    ensures forall x :: multiset(Without(records, exec, name))[x] ==
                          if Matches(x, exec, name) then 0 else multiset(records)[x]
    decreases |records|
  {
    if records != [] {
      var front, last := records[..|records| - 1], records[|records| - 1];
      WithoutCounts(front, exec, name);
      assert records == front + [last];
    }
  }

  /** A single record is kept by the selection iff it belongs to the
      execution, and by the deletion iff it does not match. */
  lemma SingleRecordFilters(r: Record, exec: string, name: Option<string>)
    ensures ForExecution([r], exec) == if r.executionId == exec then [r] else []
    ensures Without([r], exec, name) == if Matches(r, exec, name) then [] else [r]
  {
    assert [r][..0] == [];
  }

  /** Deleting leaves every record that does not match in its place and
      order, and the records of other executions untouched. */
  lemma {:induction false} WithoutOtherExecutions(records: seq<Record>, exec: string, name: Option<string>, other: string)
    requires other != exec
    ensures ForExecution(Without(records, exec, name), other) == ForExecution(records, other)
    decreases |records|
  {
    if records != [] {
      var front := records[..|records| - 1];
      var last := records[|records| - 1];
      WithoutOtherExecutions(front, exec, name, other);
      if Matches(last, exec, name) {
        assert Without(records, exec, name) == Without(front, exec, name);
        assert ForExecution(records, other) == ForExecution(front, other);
      } else {
        assert Without(records, exec, name) == Without(front, exec, name) + [last];
        ForExecutionAppend(Without(front, exec, name), last, other);
      }
    }
  }
}
