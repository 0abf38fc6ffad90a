/** Temporary storage for findings, line by line, with the faults a disk can show. */
module FindingsSpill {
  import opened FindingRows

  /** One line of the file: a complete record, or one that a failed write tore. */
  datatype Line = Record(row: Row) | Torn

  datatype FaultKind = StorageFull | OtherError

  /** What happens to one append: it succeeds, or it fails after some complete records and possibly
      part of another, and then the rollback succeeds or fails too. */
  datatype AppendFault = NoFault | Fails(written: nat, partial: bool, kind: FaultKind, rollbackFails: bool)

  datatype AppendOutcome = Written | Full | Failed

  function Lines(rows: seq<Row>): (r: seq<Line>)
    ensures |r| == |rows|
  {
    seq(|rows|, i requires 0 <= i < |rows| => Record(rows[i]))
  }

  class Spill {
    var lines: seq<Line>
    var count: nat
    /** The rows that appends have reported as written. */
    ghost var saved: seq<Row>

    /** A torn record, or complete records beyond the count, make every later read fail. */
    ghost predicate Damaged()
      reads this
    {
      Torn in lines || |lines| > count
    }

    ghost predicate Valid()
      reads this
    {
      count == |saved| && (lines == Lines(saved) || Damaged())
    }

    constructor ()
      ensures Valid() && saved == [] && !Damaged()
    {
      lines, count, saved := [], 0, [];
    }

    predicate IsEmpty()
      reads this
    {
      count == 0
    }

    /** Writing after a torn record extends that record: its line stays unreadable. */
    static function WriteLines(file: seq<Line>, rows: seq<Row>): (r: seq<Line>) {
      if file != [] && file[|file| - 1].Torn? && rows != [] then file + Lines(rows[1..]) else file + Lines(rows)
    }

    /** Appends all rows or none: a failure restores the file before it is reported, and a rollback
        that fails as well leaves a file that no longer reads. */
    method Append(messages: seq<Row>, fault: AppendFault) returns (outcome: AppendOutcome)
      requires Valid()
      modifies this
      ensures Valid()
      ensures outcome.Written? <==> fault.NoFault?
      ensures outcome.Full? <==> fault.Fails? && fault.kind.StorageFull? && !fault.rollbackFails
      ensures saved == if outcome.Written? then old(saved) + messages else old(saved)
      ensures !old(Damaged()) && !(fault.Fails? && fault.rollbackFails) ==> !Damaged()
      ensures fault.Fails? && !fault.rollbackFails ==> lines == old(lines) && count == old(count)
    {
      var offset := lines;
      match fault
      case NoFault =>
        lines := WriteLines(lines, messages);
        count := count + |messages|;
        saved := saved + messages;
        assert forall k :: 0 <= k < |offset| ==> lines[k] == offset[k];
        assert !old(Damaged()) ==> lines == Lines(saved);
        outcome := Written;
      case Fails(written, partial, kind, rollbackFails) =>
        var done := if written <= |messages| then messages[..written] else messages;
        lines := WriteLines(lines, done) + (if partial then [Torn] else []);
        assert forall k :: 0 <= k < |offset| ==> lines[k] == offset[k];
        if !rollbackFails {
          lines := offset;
        }
        outcome := if !rollbackFails && kind.StorageFull? then Full else Failed;
    }

    /** Reads the file from the start. It fails on an I/O error, a torn record, a record of an unknown
        rule, or a number of records that differs from the count. */
    method ReadBatches(rules: set<nat>, ioFails: bool) returns (rows: seq<Row>, ok: bool)
      requires Valid()
      ensures ok <==> !ioFails && !Damaged() && forall x :: x in saved ==> x.m.ruleId in rules
      ensures ok ==> rows == saved
    {
      rows, ok := [], true;
      if ioFails {
        return rows, false;
      }
      for n := 0 to |lines|
        invariant ok && |rows| == n
        invariant forall k :: 0 <= k < n ==> lines[k] == Record(rows[k]) && rows[k].m.ruleId in rules
      {
        if lines[n].Torn? {
          assert lines[n] in lines;
          return rows, false;
        }
        if lines[n].row.m.ruleId !in rules {
          assert lines == Lines(saved) ==> lines[n].row in saved;
          return rows, false;
        }
        rows := rows + [lines[n].row];
      }
      ok := |lines| == count;
      assert lines == Lines(saved) ==> rows == saved by {
        if lines == Lines(saved) {
          forall k | 0 <= k < |saved| ensures rows[k] == saved[k] { assert lines[k] == Record(saved[k]); }
        }
      }
      assert forall k :: 0 <= k < |lines| ==> lines[k] != Torn;
    }

    method Clear(fails: bool) returns (ok: bool)
      requires Valid()
      modifies this
      ensures Valid() && ok == !fails
      ensures if ok then saved == [] && !Damaged()
              else saved == old(saved) && lines == old(lines) && count == old(count)
    {
      ok := !fails;
      if ok {
        lines, count, saved := [], 0, [];
      }
    }
  }
}
