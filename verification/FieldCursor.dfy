/** The cursor over the fields of a redo record: a table of sizes, and field data aligned to 4. */
module FieldCursor {
  import opened Arithmetic

  const WORD := 0x1_0000

  /** `sizes[i]` is the size of field `i`, counted from 1; `sizes[0]` is the word before the table. */
  datatype Record = Record(count: nat, base: nat, size: nat, sizes: seq<nat>) {
    predicate Valid() {
      && count < WORD && base < WORD && |sizes| == count + 1
      && forall i :: 0 <= i <= count ==> sizes[i] < WORD
    }
  }

  /** `fieldNum`, `fieldPos` and `fieldSize`, all 16 bits wide. */
  datatype Cursor = Cursor(num: nat, pos: nat, size: nat)

  datatype Outcome = Moved(cursor: Cursor) | NoMore | Error(code: nat)

  const START := Cursor(0, 0, 0)

  /** `(fieldSize + 3) & 0xFFFC` */
  function Padded(size: nat): (r: nat)
    ensures r < WORD && r % 4 == 0
  {
    (size + 3) % WORD / 4 * 4
  }

  /** The step that the three functions have in common. */
  function Enter(rec: Record, c: Cursor, num: nat, code: nat): Outcome
    requires num < |rec.sizes|
  {
    var pos := if num == 1 then rec.base else (c.pos + Padded(c.size)) % WORD;
    if pos + rec.sizes[num] > rec.size then Error(code) else Moved(Cursor(num, pos, rec.sizes[num]))
  }

  function NextOpt(rec: Record, c: Cursor): Outcome
    requires rec.Valid()
  {
    if c.num >= rec.count then NoMore else Enter(rec, c, c.num + 1, 50005)
  }

  function Next(rec: Record, c: Cursor): Outcome
    requires rec.Valid()
  {
    var num := (c.num + 1) % WORD;
    if num > rec.count then Error(50006) else Enter(rec, c, num, 50007)
  }

  function Skip(rec: Record, c: Cursor): Outcome
    requires rec.Valid()
    decreases rec.count - c.num
  {
    if c.num >= rec.count || rec.sizes[c.num + 1] != 0 then Moved(c)
    else
      var o := Enter(rec, c, c.num + 1, 50008);
      if o.Moved? then Skip(rec, o.cursor) else o
  }

  // ------------------------------------------------------------ the functions on references

  class Fields {
    const rec: Record
    var fieldNum: nat
    var fieldPos: nat
    var fieldSize: nat

    constructor (rec: Record)
      ensures this.rec == rec && Now() == START
    {
      this.rec, fieldNum, fieldPos, fieldSize := rec, 0, 0, 0;
    }

    ghost function Now(): Cursor
      reads this
    {
      Cursor(fieldNum, fieldPos, fieldSize)
    }

    /** `nextFieldOpt`: false without an error when there is no other field. */
    method NextFieldOpt() returns (more: bool, error: nat)
      requires rec.Valid()
      modifies this
      ensures match NextOpt(rec, old(Now()))
              case Moved(c) => more && error == 0 && Now() == c
              case NoMore => !more && error == 0 && Now() == old(Now())
              case Error(code) => error == code
    {
      if fieldNum >= rec.count {
        return false, 0;
      }
      fieldNum := fieldNum + 1;
      if fieldNum == 1 {
        fieldPos := rec.base;
      } else {
        fieldPos := (fieldPos + Padded(fieldSize)) % WORD;
      }
      fieldSize := rec.sizes[fieldNum];
      if fieldPos + fieldSize > rec.size {
        return false, 50005;
      }
      return true, 0;
    }

    /** `nextField` */
    method NextField() returns (error: nat)
      requires rec.Valid()
      modifies this
      ensures match Next(rec, old(Now()))
              case Moved(c) => error == 0 && Now() == c
              case NoMore => false
              case Error(code) => error == code
    {
      fieldNum := (fieldNum + 1) % WORD;
      if fieldNum > rec.count {
        return 50006;
      }
      if fieldNum == 1 {
        fieldPos := rec.base;
      } else {
        fieldPos := (fieldPos + Padded(fieldSize)) % WORD;
      }
      fieldSize := rec.sizes[fieldNum];
      return if fieldPos + fieldSize > rec.size then 50007 else 0;
    }

    /** `skipEmptyFields` */
    method SkipEmptyFields() returns (error: nat)
      requires rec.Valid()
      modifies this
      ensures match Skip(rec, old(Now()))
              case Moved(c) => error == 0 && Now() == c
              case NoMore => false
              case Error(code) => error == code
    {
      while fieldNum + 1 <= rec.count
        invariant Skip(rec, Now()) == Skip(rec, old(Now()))
        decreases rec.count - fieldNum
      {
        var nextFieldSize := rec.sizes[fieldNum + 1];
        if nextFieldSize != 0 {
          return 0;
        }
        fieldNum := fieldNum + 1;
        if fieldNum == 1 {
          fieldPos := rec.base;
        } else {
          fieldPos := (fieldPos + Padded(fieldSize)) % WORD;
        }
        fieldSize := nextFieldSize;
        if fieldPos + fieldSize > rec.size {
          return 50008;
        }
      }
      return 0;
    }
  }

  // ------------------------------------------------------------ positions

  /** Where field `n` lies: behind the fields before it, each rounded up to a multiple of 4. */
  function Place(rec: Record, n: nat): nat
    requires 0 < n < |rec.sizes|
  {
    if n == 1 then rec.base else Place(rec, n - 1) + (rec.sizes[n - 1] + 3) / 4 * 4
  }

  /** Sizes that the 16-bit rounding gets right. */
  lemma PaddedRoundsUp(size: nat)
    requires size < WORD
    ensures Padded(size) == (size + 3) / 4 * 4 <==> size <= 65532
  {
  }

  predicate Sizable(rec: Record) {
    forall i :: 0 < i < |rec.sizes| ==> rec.sizes[i] <= 65532
  }

  /** The cursor stands before the first field, or on a field, which lies inside the record; its
      position is the place of the field in 16 bits. */
  ghost predicate OnField(rec: Record, c: Cursor)
    requires rec.Valid()
  {
    && c.num <= rec.count
    && (c.num > 0 ==> c.size == rec.sizes[c.num] && c.pos == Place(rec, c.num) % WORD && c.pos + c.size <= rec.size)
  }

  lemma EnterKeeps(rec: Record, c: Cursor, code: nat)
    requires rec.Valid() && Sizable(rec) && OnField(rec, c) && c.num < rec.count
    ensures var o := Enter(rec, c, c.num + 1, code); o.Moved? ==> OnField(rec, o.cursor) && o.cursor.num == c.num + 1
  {
    if c.num == 0 {
      Small(rec.base, WORD);
    } else {
      PaddedRoundsUp(c.size);
      hide Padded;
      WrapSum(Place(rec, c.num), Padded(c.size));
    }
  }

  lemma WrapSum(p: nat, d: nat)
    ensures (p % WORD + d) % WORD == (p + d) % WORD
  {
    DivMod(p, WORD);
    Shift(p / WORD, p % WORD + d, WORD);
  }

  datatype Call = CallNextOpt | CallNext | CallSkip

  function Step(rec: Record, c: Cursor, call: Call): Outcome
    requires rec.Valid()
  {
    match call
    case CallNextOpt => NextOpt(rec, c)
    case CallNext => Next(rec, c)
    case CallSkip => Skip(rec, c)
  }

  lemma {:induction false} SkipKeeps(rec: Record, c: Cursor)
    requires rec.Valid() && Sizable(rec) && OnField(rec, c)
    ensures Skip(rec, c).Moved? ==> OnField(rec, Skip(rec, c).cursor)
    decreases rec.count - c.num
  {
    if c.num < rec.count && rec.sizes[c.num + 1] == 0 {
      hide Enter, OnField;
      EnterKeeps(rec, c, 50008);
      EnterCounts(rec, c, 50008);
      var o := Enter(rec, c, c.num + 1, 50008);
      if o.Moved? {
        SkipKeeps(rec, o.cursor);
      }
    }
  }

  lemma EnterCounts(rec: Record, c: Cursor, code: nat)
    requires rec.Valid() && c.num < rec.count
    ensures var o := Enter(rec, c, c.num + 1, code); o.Moved? ==> o.cursor.num == c.num + 1
  {
  }

  lemma StepKeeps(rec: Record, c: Cursor, call: Call)
    requires rec.Valid() && Sizable(rec) && OnField(rec, c)
    ensures Step(rec, c, call).Moved? ==> OnField(rec, Step(rec, c, call).cursor)
  {
    if call.CallSkip? {
      SkipKeeps(rec, c);
    } else if c.num < rec.count {
      hide Enter, OnField;
      Small(c.num + 1, WORD);
      EnterKeeps(rec, c, 50005);
      EnterKeeps(rec, c, 50007);
    } else {
      hide Padded;
    }
  }

  /** The cursor after a mix of calls; a call that finds no other field leaves it alone. */
  function Calls(rec: Record, c: Cursor, calls: seq<Call>): Outcome
    requires rec.Valid()
    decreases |calls|
  {
    if calls == [] then Moved(c)
    else
      var o := Step(rec, c, calls[0]);
      match o
      case Moved(c') => Calls(rec, c', calls[1..])
      case NoMore => Calls(rec, c, calls[1..])
      case Error(_) => o
  }

  lemma {:induction false} CallsKeep(rec: Record, c: Cursor, calls: seq<Call>)
    requires rec.Valid() && Sizable(rec) && OnField(rec, c)
    ensures Calls(rec, c, calls).Moved? ==> OnField(rec, Calls(rec, c, calls).cursor)
    decreases |calls|
  {
    hide Step, OnField;
    if calls != [] {
      StepKeeps(rec, c, calls[0]);
      match Step(rec, c, calls[0]) {
        case Moved(c') => CallsKeep(rec, c', calls[1..]);
        case NoMore => CallsKeep(rec, c, calls[1..]);
        case Error(_) =>
      }
    }
  }

  /** After any calls without an error the cursor is at the place of its field if and only if that
      place fits in 16 bits, and then the field lies inside the record. */
  lemma CursorIsExact(rec: Record, calls: seq<Call>)
    requires rec.Valid() && Sizable(rec)
    ensures var o := Calls(rec, START, calls);
            o.Moved? && o.cursor.num > 0 ==>
              && o.cursor.num <= rec.count && o.cursor.size == rec.sizes[o.cursor.num]
              && (o.cursor.pos == Place(rec, o.cursor.num) <==> Place(rec, o.cursor.num) < WORD)
              && o.cursor.pos + o.cursor.size <= rec.size
  {
    CallsKeep(rec, START, calls);
    var o := Calls(rec, START, calls);
    if o.Moved? && o.cursor.num > 0 {
      DivMod(Place(rec, o.cursor.num), WORD);
      Small(Place(rec, o.cursor.num), WORD);
    }
  }

  // ------------------------------------------------------------ records below 64 KB

  /** As `OnField`, with the place itself. */
  ghost predicate OnPlace(rec: Record, c: Cursor)
    requires rec.Valid()
  {
    && c.num <= rec.count
    && (c.num > 0 ==> c.size == rec.sizes[c.num] && c.pos == Place(rec, c.num) && c.pos + c.size <= rec.size)
  }

  lemma EnterStays(rec: Record, c: Cursor, code: nat)
    requires rec.Valid() && rec.size <= 65532 && OnPlace(rec, c) && c.num < rec.count
    ensures var o := Enter(rec, c, c.num + 1, code);
            && (o.Moved? <==> Place(rec, c.num + 1) + rec.sizes[c.num + 1] <= rec.size)
            && (o.Moved? ==> OnPlace(rec, o.cursor) && o.cursor.num == c.num + 1)
            && (!o.Moved? ==> o == Error(code))
  {
    if c.num > 0 {
      PaddedRoundsUp(c.size);
      PaddedBelow(c.size);
      hide Padded;
      Small(c.pos + Padded(c.size), WORD);
    }
  }

  lemma PaddedBelow(size: nat)
    requires size <= 65532
    ensures Padded(size) <= size + 3
  {
  }

  lemma Small(x: nat, m: nat)
    requires m > 0
    ensures x < m ==> x % m == x
    ensures x % m < m
  {
  }

  lemma {:induction false} SkipStays(rec: Record, c: Cursor)
    requires rec.Valid() && rec.size <= 65532 && OnPlace(rec, c)
    ensures Skip(rec, c).Moved? ==> OnPlace(rec, Skip(rec, c).cursor)
    decreases rec.count - c.num
  {
    if c.num < rec.count && rec.sizes[c.num + 1] == 0 {
      hide Enter, OnPlace;
      EnterStays(rec, c, 50008);
      EnterCounts(rec, c, 50008);
      var o := Enter(rec, c, c.num + 1, 50008);
      if o.Moved? {
        SkipStays(rec, o.cursor);
      }
    }
  }

  lemma StepStays(rec: Record, c: Cursor, call: Call)
    requires rec.Valid() && rec.size <= 65532 && OnPlace(rec, c)
    ensures Step(rec, c, call).Moved? ==> OnPlace(rec, Step(rec, c, call).cursor)
  {
    if call.CallSkip? {
      SkipStays(rec, c);
    } else if c.num < rec.count {
      hide Enter, OnPlace;
      Small(c.num + 1, WORD);
      EnterStays(rec, c, 50005);
      EnterStays(rec, c, 50007);
    } else {
      hide Padded;
    }
  }

  lemma {:induction false} CallsStay(rec: Record, c: Cursor, calls: seq<Call>)
    requires rec.Valid() && rec.size <= 65532 && OnPlace(rec, c)
    ensures Calls(rec, c, calls).Moved? ==> OnPlace(rec, Calls(rec, c, calls).cursor)
    decreases |calls|
  {
    hide Step, OnPlace;
    if calls != [] {
      StepStays(rec, c, calls[0]);
      match Step(rec, c, calls[0]) {
        case Moved(c') => CallsStay(rec, c', calls[1..]);
        case NoMore => CallsStay(rec, c, calls[1..]);
        case Error(_) =>
      }
    }
  }

  /** The call enters field `n` from the field before it: it succeeds if and only if that field ends
      inside the record, and otherwise gives its error. */
  ghost predicate Enters(rec: Record, o: Outcome, n: nat, code: nat)
    requires rec.Valid() && 0 < n <= rec.count
  {
    if Place(rec, n) + rec.sizes[n] <= rec.size then o == Moved(Cursor(n, Place(rec, n), rec.sizes[n])) else o == Error(code)
  }

  /** In a record of at most 65532 bytes, after any calls without an error: exactly when the next call
      succeeds, and with which error it does not. */
  lemma WhenCallsSucceed(rec: Record, calls: seq<Call>)
    requires rec.Valid() && rec.size <= 65532 && Calls(rec, START, calls).Moved?
    ensures var c := Calls(rec, START, calls).cursor;
            && c.num <= rec.count
            && (if c.num < rec.count then Enters(rec, NextOpt(rec, c), c.num + 1, 50005) else NextOpt(rec, c) == NoMore)
            && (c.num < rec.count ==> Enters(rec, Next(rec, c), c.num + 1, 50007))
            && (c.num == rec.count < WORD - 1 ==> Next(rec, c) == Error(50006))
            && SkipEnds(rec, c, Skip(rec, c))
  {
    hide Calls, Enter, Skip, SkipEnds;
    CallsStay(rec, START, calls);
    var c := Calls(rec, START, calls).cursor;
    SkipEndsThere(rec, c);
    if c.num < rec.count {
      Small(c.num + 1, WORD);
      EnterStays(rec, c, 50005);
      EnterStays(rec, c, 50007);
    } else {
      Small(c.num + 1, WORD);
    }
  }

  /** Skipping succeeds if and only if all the empty fields that it passes lie inside the record. */
  ghost predicate SkipEnds(rec: Record, c: Cursor, o: Outcome)
    requires rec.Valid() && c.num <= rec.count
  {
    var k := FirstFilled(rec, c.num);
    if forall i :: c.num < i < k ==> Place(rec, i) <= rec.size
    then o == Moved(if k == c.num + 1 then c else Cursor(k - 1, Place(rec, k - 1), 0))
    else o == Error(50008)
  }

  lemma {:induction false} SkipEndsThere(rec: Record, c: Cursor)
    requires rec.Valid() && rec.size <= 65532 && OnPlace(rec, c)
    ensures SkipEnds(rec, c, Skip(rec, c))
    decreases rec.count - c.num
  {
    if c.num < rec.count && rec.sizes[c.num + 1] == 0 {
      hide Enter;
      EnterStays(rec, c, 50008);
      var o := Enter(rec, c, c.num + 1, 50008);
      var k := FirstFilled(rec, c.num);
      assert k == FirstFilled(rec, c.num + 1);
      if o.Moved? {
        SkipEndsThere(rec, o.cursor);
      }
    }
  }

  /** In a record of at most 65532 bytes the cursor is always at the place of its field, and the field
      lies inside the record, whatever the table of sizes says. */
  lemma FieldsInsideRecord(rec: Record, calls: seq<Call>)
    requires rec.Valid() && rec.size <= 65532
    ensures var o := Calls(rec, START, calls);
            o.Moved? && o.cursor.num > 0 ==>
              && o.cursor.num <= rec.count && o.cursor.size == rec.sizes[o.cursor.num]
              && o.cursor.pos == Place(rec, o.cursor.num) && Place(rec, o.cursor.num) + o.cursor.size <= rec.size
  {
    CallsStay(rec, START, calls);
  }

  /** A larger record can put a field where 16 bits do not reach. */
  lemma LargeRecordWraps()
    ensures var rec := Record(3, 0, 70000, [0, 65532, 8, 8]);
            rec.Valid() && Sizable(rec) && Calls(rec, START, [CallNext, CallNext, CallNext]) == Moved(Cursor(3, 4, 8)) && Place(rec, 3) == 65540
  {
    var rec := Record(3, 0, 70000, [0, 65532, 8, 8]);
    assert Next(rec, START) == Moved(Cursor(1, 0, 65532));
    assert Next(rec, Cursor(1, 0, 65532)) == Moved(Cursor(2, 65532, 8));
    assert Next(rec, Cursor(2, 65532, 8)) == Moved(Cursor(3, 4, 8));
    var calls := [CallNext, CallNext, CallNext];
    assert calls[1..] == [CallNext, CallNext] && calls[1..][1..] == [CallNext] && calls[1..][1..][1..] == [];
    assert Place(rec, 2) == 65532;
  }

  // ------------------------------------------------------------ empty fields

  /** The first field after `n` that is not empty, or one past the last. */
  function FirstFilled(rec: Record, n: nat): (k: nat)
    requires rec.Valid() && n <= rec.count
    ensures n < k <= rec.count + 1 && (k <= rec.count ==> rec.sizes[k] != 0) && forall i :: n < i < k ==> rec.sizes[i] == 0
    decreases rec.count - n
  {
    if n == rec.count || rec.sizes[n + 1] != 0 then n + 1 else FirstFilled(rec, n + 1)
  }

  lemma {:induction false} SkipStopsBefore(rec: Record, c: Cursor)
    requires rec.Valid() && c.num <= rec.count
    ensures Skip(rec, c).Moved? ==> Skip(rec, c).cursor.num == FirstFilled(rec, c.num) - 1
    ensures !Skip(rec, c).NoMore?
    decreases rec.count - c.num
  {
    if c.num < rec.count && rec.sizes[c.num + 1] == 0 {
      hide Enter;
      EnterCounts(rec, c, 50008);
      EnterMoves(rec, c, 50008);
      var o := Enter(rec, c, c.num + 1, 50008);
      if o.Moved? {
        SkipStopsBefore(rec, o.cursor);
      }
    }
  }

  lemma EnterMoves(rec: Record, c: Cursor, code: nat)
    requires rec.Valid() && c.num < rec.count
    ensures !Enter(rec, c, c.num + 1, code).NoMore?
  {
  }

  /** After `skipEmptyFields`, `nextField` delivers the first later field that is not empty; without
      one it reports the missing field, as long as the counter does not wrap. */
  lemma SkipThenNext(rec: Record, c: Cursor)
    requires rec.Valid() && c.num <= rec.count && Skip(rec, c).Moved?
    ensures var k := FirstFilled(rec, c.num);
            match Next(rec, Skip(rec, c).cursor)
            case Moved(n) => k <= rec.count ==> n.num == k && n.size == rec.sizes[k]
            case NoMore => false
            case Error(code) => code == 50007 || (code == 50006 && k == rec.count + 1)
    ensures FirstFilled(rec, c.num) == rec.count + 1 && rec.count < WORD - 1 ==> Next(rec, Skip(rec, c).cursor) == Error(50006)
  {
    hide Skip, Padded;
    SkipStopsBefore(rec, c);
    Small(FirstFilled(rec, c.num), WORD);
  }
}
