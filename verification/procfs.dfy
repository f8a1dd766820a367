/** The process-map reader (src/primitives/procfs.rs, `find_memory_region`)
    as a pure function of the lines of `/proc/<pid>/maps`; reading the file
    is the caller's business (see the `Effects` module). */
module Procfs {
  import opened Base
  import opened Text
  import opened Hex
  import opened Errors
  import Foreign

  /** Address columns: start is [0, 12), end is [13, 25). */
  const START_END: nat := 12
  const END_BEGIN: nat := 13
  const END_END: nat := 25

  /** A line is kept when its second whitespace-separated field (the
      permissions) contains `permissions`; a line with fewer than two
      fields is dropped. */
  predicate Selects(line: string, permissions: string) {
    var fields := Words(line);
    |fields| >= 2 && Contains(fields[1], permissions)
  }

  /** The kept lines, in listing order. */
  function Select(lines: seq<string>, permissions: string): (r: seq<string>)
    ensures |r| <= |lines|
    ensures forall k :: 0 <= k < |r| ==> Selects(r[k], permissions)
  {
    if |lines| == 0 then []
    else if Selects(lines[0], permissions) then [lines[0]] + Select(lines[1..], permissions)
    else Select(lines[1..], permissions)
  }

  /** How long a line must be for the requested column to be sliced. */
  function FieldEnd(getStart: bool): nat {
    if getStart then START_END else END_END
  }

  /** The requested address column of a line. */
  function Field(line: string, getStart: bool): (f: string)
    requires |line| >= FieldEnd(getStart)
    ensures |f| == 12
    ensures getStart ==> forall i :: 0 <= i < 12 ==> f[i] == line[i]
    ensures !getStart ==> forall i :: 0 <= i < 12 ==> f[i] == line[END_BEGIN + i]
  {
    if getStart then line[..START_END] else line[END_BEGIN..END_END]
  }

  /** The parse of a kept line's column. */
  function ParseField(line: string, getStart: bool): Result<U64, Foreign.ParseIntError>
    requires |line| >= FieldEnd(getStart)
  {
    FromStrRadix16(Field(line, getStart))
  }

  /** The slice panics on a kept line that is too short, unless the lazy
      collection has already stopped at an earlier parse error. */
  predicate NoPanic(lines: seq<string>, getStart: bool, permissions: string) {
    if |lines| == 0 then true
    else if !Selects(lines[0], permissions) then NoPanic(lines[1..], getStart, permissions)
    else if |lines[0]| < FieldEnd(getStart) then false
    else if ParseField(lines[0], getStart).Err? then true
    else NoPanic(lines[1..], getStart, permissions)
  }

  /** Every kept line is long enough and its column is valid hexadecimal. */
  predicate ParsesAll(sel: seq<string>, getStart: bool) {
    forall k :: 0 <= k < |sel| ==> |sel[k]| >= FieldEnd(getStart) && ParseField(sel[k], getStart).Ok?
  }

  /** The parsed column of every kept line, in order. */
  function Addresses(sel: seq<string>, getStart: bool): (r: seq<U64>)
    requires ParsesAll(sel, getStart)
    ensures |r| == |sel|
    ensures forall k :: 0 <= k < |sel| ==> ParseField(sel[k], getStart) == Ok(r[k])
  {
    if |sel| == 0 then []
    else
      ParsesAllCons(sel[0], sel[1..], getStart);
      assert sel == [sel[0]] + sel[1..];
      [ParseField(sel[0], getStart).value] + Addresses(sel[1..], getStart)
  }

  /** `find_memory_region` on the lines of the maps listing: the start (or
      end) address of every kept line, in order, or the first parse error
      and no partial list. */
  function FindMemoryRegion(lines: seq<string>, getStart: bool, permissions: string): (r: Result<seq<U64>, Error>)
    requires NoPanic(lines, getStart, permissions)
    ensures r.Ok? <==> ParsesAll(Select(lines, permissions), getStart)
    ensures r.Ok? ==> r.value == Addresses(Select(lines, permissions), getStart)
    ensures r.Err? ==> r.error.ParseInt?
  {
    if |lines| == 0 then Ok([])
    else if !Selects(lines[0], permissions) then FindMemoryRegion(lines[1..], getStart, permissions)
    else
      var tail := Select(lines[1..], permissions);
      assert Select(lines, permissions) == [lines[0]] + tail;
      ParsesAllCons(lines[0], tail, getStart);
      match ParseField(lines[0], getStart)
      case Err(e) => Err(ParseInt(e))
      case Ok(v) =>
        match FindMemoryRegion(lines[1..], getStart, permissions)
        case Err(e) => Err(e)
        case Ok(rest) =>
          assert ([lines[0]] + tail)[1..] == tail;
          Ok([v] + rest)
  }

  /** The error reported is the one of the first kept line whose column
      does not parse, as `collect` into a `Result` stops there; nothing
      after it is sliced, so no later line can panic. */
  lemma {:induction false} FirstBadLineReported(lines: seq<string>, getStart: bool, permissions: string, k: nat)
    requires k < |Select(lines, permissions)|
    requires ParsesAll(Select(lines, permissions)[..k], getStart)
    requires |Select(lines, permissions)[k]| >= FieldEnd(getStart)
    requires ParseField(Select(lines, permissions)[k], getStart).Err?
    ensures NoPanic(lines, getStart, permissions)
    ensures FindMemoryRegion(lines, getStart, permissions)
         == Err(ParseInt(ParseField(Select(lines, permissions)[k], getStart).error))
    decreases |lines|
  {
    if !Selects(lines[0], permissions) {
      FirstBadLineReported(lines[1..], getStart, permissions, k);
    } else if k > 0 {
      KeptLineParses(lines, getStart, permissions, k);
      FirstBadLineReported(lines[1..], getStart, permissions, k - 1);
    }
  }

  /** When a kept first line precedes the first bad line, it parses, and
      the bad line is the (k - 1)-th kept line of the rest. */
  lemma KeptLineParses(lines: seq<string>, getStart: bool, permissions: string, k: nat)
    requires |lines| > 0 && Selects(lines[0], permissions)
    requires 0 < k < |Select(lines, permissions)|
    requires ParsesAll(Select(lines, permissions)[..k], getStart)
    ensures |lines[0]| >= FieldEnd(getStart) && ParseField(lines[0], getStart).Ok?
    ensures k - 1 < |Select(lines[1..], permissions)|
    ensures ParsesAll(Select(lines[1..], permissions)[..k - 1], getStart)
    ensures Select(lines, permissions)[k] == Select(lines[1..], permissions)[k - 1]
  {
    var sel := Select(lines, permissions);
    var tail := Select(lines[1..], permissions);
    assert sel == [lines[0]] + tail;
    assert sel[..k] == [lines[0]] + tail[..k - 1];
    ParsesAllCons(lines[0], tail[..k - 1], getStart);
  }

  /** The k-th address found is the base-16 value of the k-th kept
      line's columns 0 to 11 (start) or 13 to 24 (end). */
  lemma RegionColumns(lines: seq<string>, getStart: bool, permissions: string, k: nat)
    requires NoPanic(lines, getStart, permissions)
    requires FindMemoryRegion(lines, getStart, permissions).Ok?
    requires k < |FindMemoryRegion(lines, getStart, permissions).value|
    ensures var line := Select(lines, permissions)[k];
            var a := FindMemoryRegion(lines, getStart, permissions).value[k];
            && |line| >= FieldEnd(getStart)
            && (getStart ==> FromStrRadix16(line[..12]) == Ok(a))
            && (!getStart ==> FromStrRadix16(line[13..25]) == Ok(a))
  {
    var line := Select(lines, permissions)[k];
    var f := Field(line, getStart);
    if getStart {
      assert f == line[..12];
    } else {
      assert f == line[13..25];
    }
  }

  /** Every address found is below 16^12: it comes from a 12-character
      column. */
  lemma AddressesBound(lines: seq<string>, getStart: bool, permissions: string)
    requires NoPanic(lines, getStart, permissions)
    requires FindMemoryRegion(lines, getStart, permissions).Ok?
    ensures forall k :: 0 <= k < |FindMemoryRegion(lines, getStart, permissions).value| ==>
              FindMemoryRegion(lines, getStart, permissions).value[k] < Pow16(12)
  {
  }

  lemma ParsesAllCons(line: string, sel: seq<string>, getStart: bool)
    ensures ParsesAll([line] + sel, getStart) <==>
            |line| >= FieldEnd(getStart) && ParseField(line, getStart).Ok? && ParsesAll(sel, getStart)
  {
    var all := [line] + sel;
    if ParsesAll(all, getStart) {
      assert all[0] == line;
      forall k | 0 <= k < |sel|
        ensures |sel[k]| >= FieldEnd(getStart) && ParseField(sel[k], getStart).Ok?
      {
        assert all[k + 1] == sel[k];
      }
    }
    if |line| >= FieldEnd(getStart) && ParseField(line, getStart).Ok? && ParsesAll(sel, getStart) {
      forall k | 0 <= k < |all|
        ensures |all[k]| >= FieldEnd(getStart) && ParseField(all[k], getStart).Ok?
      {
        if k > 0 {
          assert all[k] == sel[k - 1];
        }
      }
    }
  }

  /** Kept lines keep their listing order across a split of the listing. */
  lemma {:induction false} SelectAppend(a: seq<string>, b: seq<string>, permissions: string)
    ensures Select(a + b, permissions) == Select(a, permissions) + Select(b, permissions)
    decreases |a|
  {
    if |a| == 0 {
      assert a + b == b;
    } else {
      assert (a + b)[1..] == a[1..] + b;
      SelectAppend(a[1..], b, permissions);
    }
  }

  /** A line is kept exactly when it is in the listing and its permission
      field matches. */
  lemma {:induction false} SelectMembership(lines: seq<string>, permissions: string, line: string)
    ensures line in Select(lines, permissions) <==> line in lines && Selects(line, permissions)
    decreases |lines|
  {
    if |lines| > 0 {
      SelectMembership(lines[1..], permissions, line);
      assert lines == [lines[0]] + lines[1..];
    }
  }

  /** With no matching line the answer is an empty list, not an error. */
  lemma {:induction false} NoMatchIsEmpty(lines: seq<string>, getStart: bool, permissions: string)
    requires forall i :: 0 <= i < |lines| ==> !Selects(lines[i], permissions)
    ensures NoPanic(lines, getStart, permissions)
    ensures FindMemoryRegion(lines, getStart, permissions) == Ok([])
    decreases |lines|
  {
    if |lines| > 0 {
      NoMatchIsEmpty(lines[1..], getStart, permissions);
    }
  }

  /** A line with fewer than two fields is skipped silently: the answer is
      the one for the rest of the listing. */
  lemma ShortLineIgnored(line: string, rest: seq<string>, getStart: bool, permissions: string)
    requires |Words(line)| < 2
    requires NoPanic(rest, getStart, permissions)
    ensures NoPanic([line] + rest, getStart, permissions)
    ensures FindMemoryRegion([line] + rest, getStart, permissions) == FindMemoryRegion(rest, getStart, permissions)
  {
    assert ([line] + rest)[1..] == rest;
  }

  /** Which lines are kept does not depend on the column asked for, so a
      start query and an end query that both succeed have equal lengths. */
  lemma StartAndEndAgree(lines: seq<string>, permissions: string)
    requires NoPanic(lines, true, permissions) && NoPanic(lines, false, permissions)
    requires FindMemoryRegion(lines, true, permissions).Ok?
    requires FindMemoryRegion(lines, false, permissions).Ok?
    ensures |FindMemoryRegion(lines, true, permissions).value| == |FindMemoryRegion(lines, false, permissions).value|
  {
  }

  /** A listing whose every kept line is long enough never panics. */
  lemma {:induction false} LongLinesNoPanic(lines: seq<string>, getStart: bool, permissions: string)
    requires forall i :: 0 <= i < |lines| && Selects(lines[i], permissions) ==> |lines[i]| >= FieldEnd(getStart)
    ensures NoPanic(lines, getStart, permissions)
    decreases |lines|
  {
    if |lines| > 0 {
      LongLinesNoPanic(lines[1..], getStart, permissions);
    }
  }
}
