/** The column pass of a row change: before and after images are pruned and completed before the
    change is printed. */
module ColumnImages {
  import opened Basics

  /** An image is missing, or it is there; NULL is an image without bytes. */
  type Image = Option<seq<int>>

  const NULL: Image := Some([])

  datatype Images = Images(before: Image, beforeSupp: Image, after: Image, afterSupp: Image)

  const NOTHING := Images(None, None, None, None)

  const BITS := 64

  /** `valuesSet`, `values` and `valuesMax`; each word of the bitset is the set of its bits. */
  datatype Columns = Columns(words: seq<set<nat>>, values: seq<Images>, max: nat) {
    predicate Valid() {
      && |values| == BITS * |words| && max / BITS < |words|
      && forall b :: 0 <= b < |words| ==> forall p :: p in words[b] ==> p < BITS
    }

    predicate IsSet(c: nat)
      requires Valid()
    {
      c < |values| && c % BITS in words[c / BITS]
    }

    /** The loops over the set bits reach column `c`. */
    predicate Visited(c: nat)
      requires Valid()
    {
      IsSet(c) && c / BITS <= max / BITS
    }
  }

  datatype ColumnInfo = ColumnInfo(nullable: bool, numPk: nat)

  /** The columns and the columns of the primary key. */
  datatype Table = Table(columns: seq<ColumnInfo>, pk: seq<nat>)

  datatype ColumnFormat = CHANGED | FULL_INS_DEC | FULL_UPD

  datatype Settings = Settings(format: ColumnFormat, notNullMissing: bool)

  // ------------------------------------------------------------ one column

  datatype Visit = Keep(images: Images) | Remove(images: Images) | Fail(code: nat)

  /** What a loop over the set bits does. */
  datatype Pass = Update(known: Option<Table>) | Insert(table: Table) | Delete(table: Table) | Release

  /** With the experimental flag a NOT NULL column never has a NULL before image. */
  function Corrected(s: Settings, info: ColumnInfo, im: Images): Images {
    if s.notNullMissing && !info.nullable && im.before == NULL && im.after.Some? && im.after != NULL
    then im.(before := im.after, beforeSupp := im.afterSupp)
    else im
  }

  /** Missing images of an updated column are NULL. */
  function Completed(im: Images): Images {
    if im.before.Some? && im.after.None? then im.(after := NULL)
    else if im.after.Some? && im.before.None? then im.(before := NULL)
    else im
  }

  predicate Unchanged(im: Images) {
    || (im.before.Some? && im.before == im.after)
    || (im.before == NULL && im.after.None?)
    || (im.after == NULL && im.before.None?)
  }

  function UpdateColumn(s: Settings, table: Option<Table>, c: nat, im: Images): Visit {
    if table.None? then Keep(Completed(im))
    else if c >= |table.value.columns| then Fail(50073)
    else
      var info := table.value.columns[c];
      var im' := Corrected(s, info, im);
      if !s.format.FULL_UPD? && info.numPk == 0 && Unchanged(im') then Remove(NOTHING) else Keep(Completed(im'))
  }

  /** Not an error of the original: an insert or a delete looks a column up that the table does not
      have, without a check. */
  const OUTSIDE_TABLE := 1

  function VisitColumn(s: Settings, pass: Pass, c: nat, im: Images): Visit {
    match pass
    case Update(table) => UpdateColumn(s, table, c, im)
    case Insert(table) =>
      if c >= |table.columns| then Fail(OUTSIDE_TABLE)
      else if table.columns[c].numPk == 0 && (im.after.None? || im.after == NULL) then Remove(im.(after := None, afterSupp := None)) else Keep(im)
    case Delete(table) =>
      if c >= |table.columns| then Fail(OUTSIDE_TABLE)
      else if table.columns[c].numPk == 0 && (im.before.None? || im.before == NULL) then Remove(im.(before := None, beforeSupp := None)) else Keep(im)
    case Release => Remove(NOTHING)
  }

  // ------------------------------------------------------------ all set columns

  function VisitOf(s: Settings, pass: Pass, cols: Columns, c: nat): Visit
    requires cols.Valid() && c < |cols.values|
  {
    VisitColumn(s, pass, c, cols.values[c])
  }

  /** `after` is what a loop over the set bits makes of `before`: every visited column is treated by
      itself, the others stay. */
  ghost predicate Walked(s: Settings, pass: Pass, before: Columns, after: Columns)
    requires before.Valid()
  {
    && after.Valid() && |after.words| == |before.words| && after.max == before.max
    && forall c :: 0 <= c < |before.values| ==>
         if before.Visited(c) then
           var v := VisitOf(s, pass, before, c);
           && !v.Fail? && after.values[c] == v.images
           && (after.IsSet(c) <==> v.Keep?)
         else after.values[c] == before.values[c] && (after.IsSet(c) <==> before.IsSet(c))
  }

  // ------------------------------------------------------------ what a change means

  /** A missing image stands for NULL. */
  function Meaning(im: Image): seq<int> {
    if im.None? then [] else im.value
  }

  /** Row values, with the empty value for NULL. */
  type Row = nat -> seq<int>

  predicate HasImage(im: Images) {
    im.before.Some? || im.after.Some?
  }

  /** The value of column `c` after the update. */
  function Updated(cols: Columns, row: Row, c: nat): seq<int>
    requires cols.Valid()
  {
    if cols.IsSet(c) && HasImage(cols.values[c]) then Meaning(cols.values[c].after) else row(c)
  }

  /** The row has the values that the before images give. */
  ghost predicate Agrees(cols: Columns, row: Row)
    requires cols.Valid()
  {
    forall c :: 0 <= c < |cols.values| && cols.IsSet(c) && HasImage(cols.values[c]) ==> row(c) == Meaning(cols.values[c].before)
  }

  /** The correction for NOT NULL columns replaces the before image of a column that may be pruned. */
  predicate Overridden(s: Settings, table: Option<Table>, cols: Columns, c: nat)
    requires cols.Valid()
  {
    && table.Some? && cols.Visited(c) && c < |table.value.columns|
    && !s.format.FULL_UPD? && table.value.columns[c].numPk == 0
    && Corrected(s, table.value.columns[c], cols.values[c]) != cols.values[c]
  }

  lemma UpdateColumnKeepsMeaning(s: Settings, table: Option<Table>, c: nat, im: Images)
    requires HasImage(im)
    ensures match UpdateColumn(s, table, c, im)
            case Keep(im') => HasImage(im') && Meaning(im'.after) == Meaning(im.after)
            case Remove(_) =>
              && table.Some? && c < |table.value.columns|
              && (Meaning(im.after) == Meaning(im.before) <==> Corrected(s, table.value.columns[c], im) == im)
            case Fail(_) => table.Some? && c >= |table.value.columns|
    ensures (&& table.Some? && c < |table.value.columns| && !s.format.FULL_UPD? && table.value.columns[c].numPk == 0
             && Corrected(s, table.value.columns[c], im) != im)
            ==> UpdateColumn(s, table, c, im).Remove?
  {
  }

  /** What an update makes of column `c` of a row that has the before images is the same after pruning
      and completing if and only if the correction for NOT NULL columns did not replace the before
      image of a column that may be pruned. */
  lemma PruningKeepsMeaning(s: Settings, table: Option<Table>, before: Columns, after: Columns, row: Row, c: nat)
    requires before.Valid() && Walked(s, Update(table), before, after) && Agrees(before, row)
    ensures Updated(after, row, c) == Updated(before, row, c) <==> !Overridden(s, table, before, c)
  {
    if c < |before.values| && before.Visited(c) {
      var im := before.values[c];
      if HasImage(im) {
        UpdateColumnKeepsMeaning(s, table, c, im);
      }
    }
  }

  /** Without the flag every column keeps its meaning. */
  lemma NothingOverridden(s: Settings, table: Option<Table>, cols: Columns, c: nat)
    requires cols.Valid() && !s.notNullMissing
    ensures !Overridden(s, table, cols, c)
  {
  }

  /** The before image, with the correction for NOT NULL columns. */
  function BeforeOf(s: Settings, table: Option<Table>, c: nat, im: Images): Image {
    if table.Some? && c < |table.value.columns| then Corrected(s, table.value.columns[c], im).before else im.before
  }

  /** In the formats that prune, a column outside the primary key that has an image stays if and only
      if its images differ. */
  lemma SurvivesIffChanged(s: Settings, table: Table, before: Columns, after: Columns, c: nat)
    requires before.Valid() && Walked(s, Update(Some(table)), before, after) && before.Visited(c)
    requires !s.format.FULL_UPD? && HasImage(before.values[c])
    ensures c < |table.columns|
    ensures table.columns[c].numPk == 0 ==>
              (after.IsSet(c) <==>
               Meaning(BeforeOf(s, Some(table), c, before.values[c])) != Meaning(before.values[c].after))
    ensures table.columns[c].numPk > 0 ==> after.IsSet(c)
    ensures after.IsSet(c) ==> after.values[c].before.Some? && after.values[c].after.Some?
  {
    assert !VisitOf(s, Update(Some(table)), before, c).Fail?;
  }

  /** The experimental flag replaces the NULL before image of a NOT NULL column by the new value. */
  predicate Replaced(s: Settings, table: Option<Table>, c: nat, im: Images) {
    && table.Some? && c < |table.value.columns| && s.notNullMissing && !table.value.columns[c].nullable
    && im.before.Some? && |im.before.value| == 0 && im.after.Some? && |im.after.value| > 0
  }

  /** Exactly which columns an update leaves, in every format: all those of an unknown table or in the
      full format, those of the key, those without any image, and those whose images differ. */
  lemma UpdateLeaves(s: Settings, table: Option<Table>, before: Columns, after: Columns, c: nat)
    requires before.Valid() && Walked(s, Update(table), before, after) && before.Visited(c)
    ensures table.Some? ==> c < |table.value.columns|
    ensures var im := before.values[c];
            var previous := if Replaced(s, table, c, im) then im.after else im.before;
            after.IsSet(c) <==>
              || table.None? || s.format.FULL_UPD? || table.value.columns[c].numPk > 0
              || !HasImage(im) || Meaning(previous) != Meaning(im.after)
  {
    assert !VisitOf(s, Update(table), before, c).Fail?;
  }

  /** What is left of a column: its images as they were, and both of them if there was one, apart from
      the before image that the flag replaces; of a column that is not left, nothing. */
  lemma UpdateImages(s: Settings, table: Option<Table>, before: Columns, after: Columns, c: nat)
    requires before.Valid() && Walked(s, Update(table), before, after) && before.Visited(c)
    ensures var im, r := before.values[c], after.values[c];
            if !after.IsSet(c) then r == NOTHING
            else if !HasImage(im) then r == im
            else
              && r.before.Some? && r.after.Some? && Meaning(r.after) == Meaning(im.after)
              && Meaning(r.before) == Meaning(if Replaced(s, table, c, im) then im.after else im.before)
              && (im.after.Some? ==> r.after == im.after) && r.afterSupp == im.afterSupp
              && r.beforeSupp == if Replaced(s, table, c, im) then im.afterSupp else im.beforeSupp
  {
    assert !VisitOf(s, Update(table), before, c).Fail?;
  }

  /** The row that an insert makes, or that a delete removes: absent columns are NULL. */
  function Inserted(cols: Columns, c: nat): seq<int>
    requires cols.Valid()
  {
    if cols.IsSet(c) then Meaning(cols.values[c].after) else []
  }

  function Deleted(cols: Columns, c: nat): seq<int>
    requires cols.Valid()
  {
    if cols.IsSet(c) then Meaning(cols.values[c].before) else []
  }

  lemma InsertPruned(s: Settings, table: Table, before: Columns, after: Columns, c: nat)
    requires before.Valid() && Walked(s, Insert(table), before, after)
    ensures Inserted(after, c) == Inserted(before, c)
  {
  }

  lemma DeletePruned(s: Settings, table: Table, before: Columns, after: Columns, c: nat)
    requires before.Valid() && Walked(s, Delete(table), before, after)
    ensures Deleted(after, c) == Deleted(before, c)
  {
  }

  // ------------------------------------------------------------ the loop over the set bits

  /** Column `c` is as it was. */
  ghost predicate Untouched(before: Columns, now: Columns, c: nat)
    requires before.Valid() && now.Valid() && |now.words| == |before.words| && c < |before.values|
  {
    now.values[c] == before.values[c] && (now.IsSet(c) <==> before.IsSet(c))
  }

  ghost predicate Treated(s: Settings, pass: Pass, before: Columns, now: Columns, c: nat)
    requires before.Valid() && now.Valid() && |now.words| == |before.words| && before.Visited(c)
  {
    var v := VisitOf(s, pass, before, c);
    !v.Fail? && now.values[c] == v.images && (now.IsSet(c) <==> v.Keep?)
  }

  /** The loops are done with column `c`: its word is behind, or its bit is no longer in `rest`. */
  predicate Behind(base: nat, rest: set<nat>, c: nat) {
    c / BITS < base || (c / BITS == base && c % BITS !in rest)
  }

  ghost predicate WalkedUpTo(s: Settings, pass: Pass, before: Columns, now: Columns, base: nat, rest: set<nat>)
    requires before.Valid()
  {
    && now.Valid() && |now.words| == |before.words| && now.max == before.max
    && forall c :: 0 <= c < |before.values| ==>
         if before.Visited(c) && Behind(base, rest, c) then Treated(s, pass, before, now, c) else Untouched(before, now, c)
  }

  lemma ColumnOf(base: nat, pos: nat)
    requires pos < BITS
    ensures (BITS * base + pos) / BITS == base && (BITS * base + pos) % BITS == pos
  {
  }

  /** The effect of one visit. */
  function Put(cols: Columns, base: nat, pos: nat, v: Visit): Columns
    requires cols.Valid() && base < |cols.words| && pos < BITS && !v.Fail?
  {
    cols.(values := cols.values[BITS * base + pos := v.images],
          words := if v.Remove? then cols.words[base := cols.words[base] - {pos}] else cols.words)
  }

  lemma PutElsewhere(cols: Columns, base: nat, pos: nat, v: Visit, c: nat)
    requires cols.Valid() && base < |cols.words| && pos < BITS && !v.Fail? && c < |cols.values|
    ensures var r := Put(cols, base, pos, v);
            && r.Valid()
            && (c != BITS * base + pos ==> r.values[c] == cols.values[c] && (r.IsSet(c) <==> cols.IsSet(c)))
            && (c == BITS * base + pos ==> r.values[c] == v.images && (r.IsSet(c) <==> cols.IsSet(c) && v.Keep?))
  {
    ColumnOf(base, pos);
    assert c == BITS * (c / BITS) + c % BITS;
  }

  lemma WalkStep(s: Settings, pass: Pass, before: Columns, now: Columns, base: nat, rest: set<nat>, pos: nat)
    requires before.Valid() && WalkedUpTo(s, pass, before, now, base, rest)
    requires base < |before.words| && base <= before.max / BITS && rest <= before.words[base] && pos in rest
    ensures pos < BITS && BITS * base + pos < |before.values| && before.Visited(BITS * base + pos)
    ensures var v := VisitOf(s, pass, before, BITS * base + pos);
            && now.values[BITS * base + pos] == before.values[BITS * base + pos]
            && (!v.Fail? ==> WalkedUpTo(s, pass, before, Put(now, base, pos, v), base, rest - {pos}))
  {
    var column := BITS * base + pos;
    ColumnOf(base, pos);
    assert before.Visited(column);
    assert Untouched(before, now, column);
    var v := VisitOf(s, pass, before, column);
    if !v.Fail? {
      var r := Put(now, base, pos, v);
      PutElsewhere(now, base, pos, v, column);
      forall c: nat | c < |before.values|
        ensures if before.Visited(c) && Behind(base, rest - {pos}, c) then Treated(s, pass, before, r, c) else Untouched(before, r, c)
      {
        PutElsewhere(now, base, pos, v, c);
        if c == column {
          assert Behind(base, rest - {pos}, c);
          assert Treated(s, pass, before, r, c);
        } else {
          BehindElsewhere(base, rest, pos, c);
          if before.Visited(c) && Behind(base, rest, c) {
            assert Treated(s, pass, before, now, c);
          } else {
            assert Untouched(before, now, c);
          }
        }
      }
    }
  }

  lemma BehindElsewhere(base: nat, rest: set<nat>, pos: nat, c: nat)
    requires pos < BITS && c != BITS * base + pos
    ensures Behind(base, rest - {pos}, c) <==> Behind(base, rest, c)
  {
    assert c == BITS * (c / BITS) + c % BITS;
  }

  lemma WordStep(s: Settings, pass: Pass, before: Columns, now: Columns, base: nat)
    requires before.Valid() && WalkedUpTo(s, pass, before, now, base, {})
    ensures base + 1 < |before.words| ==> WalkedUpTo(s, pass, before, now, base + 1, before.words[base + 1])
    ensures base == before.max / BITS ==> Walked(s, pass, before, now)
  {
  }

  lemma WordUntouched(s: Settings, pass: Pass, before: Columns, now: Columns, base: nat)
    requires before.Valid() && base < |before.words| && WalkedUpTo(s, pass, before, now, base, before.words[base])
    ensures now.words[base] == before.words[base]
  {
    forall p: nat | p < BITS ensures p in now.words[base] <==> p in before.words[base] {
      ColumnOf(base, p);
      assert Untouched(before, now, BITS * base + p);
    }
  }

  // ------------------------------------------------------------ missing columns

  /** A column that is not set gets a NULL image; `raise` tells whether `valuesMax` follows. */
  function FillOne(cols: Columns, c: nat, before: bool, raise: bool): (r: Columns)
    requires cols.Valid() && c + 1 < |cols.values|
    ensures r.Valid() && |r.words| == |cols.words| && r.max >= cols.max
  {
    if cols.IsSet(c) then cols
    else
      var im := cols.values[c];
      cols.(words := cols.words[c / BITS := cols.words[c / BITS] + {c % BITS}],
            values := cols.values[c := if before then im.(before := NULL) else im.(after := NULL)],
            max := if raise && c >= cols.max then c + 1 else cols.max)
  }

  function Fill(cols: Columns, list: seq<nat>, before: bool, raise: bool): (r: Columns)
    requires cols.Valid() && forall i :: 0 <= i < |list| ==> list[i] + 1 < |cols.values|
    ensures r.Valid() && |r.words| == |cols.words| && r.max >= cols.max
    decreases |list|
  {
    if list == [] then cols else FillOne(Fill(cols, list[..|list| - 1], before, raise), list[|list| - 1], before, raise)
  }

  lemma FillOneSets(cols: Columns, c: nat, before: bool, raise: bool, k: nat)
    requires cols.Valid() && c + 1 < |cols.values|
    ensures var r := FillOne(cols, c, before, raise);
            && (r.IsSet(k) <==> cols.IsSet(k) || k == c)
            && (k < |cols.values| && cols.IsSet(k) ==> r.values[k] == cols.values[k])
            && (k < |cols.values| && k != c ==> r.values[k] == cols.values[k])
            && (k == c && !cols.IsSet(c) ==> if before then r.values[k].before == NULL else r.values[k].after == NULL)
  {
    assert c == BITS * (c / BITS) + c % BITS && k == BITS * (k / BITS) + k % BITS;
  }

  lemma {:induction false} FillKeepsRow(cols: Columns, list: seq<nat>, before: bool, raise: bool, c: nat)
    requires cols.Valid() && forall i :: 0 <= i < |list| ==> list[i] + 1 < |cols.values|
    ensures var r := Fill(cols, list, before, raise);
            if before then Deleted(r, c) == Deleted(cols, c) else Inserted(r, c) == Inserted(cols, c)
    decreases |list|
  {
    if list != [] {
      var n := |list| - 1;
      FillKeepsRow(cols, list[..n], before, raise, c);
      FillOneSets(Fill(cols, list[..n], before, raise), list[n], before, raise, c);
    }
  }

  lemma {:induction false} FillSets(cols: Columns, list: seq<nat>, before: bool, raise: bool, c: nat)
    requires cols.Valid() && forall i :: 0 <= i < |list| ==> list[i] + 1 < |cols.values|
    ensures Fill(cols, list, before, raise).IsSet(c) <==> cols.IsSet(c) || c in list
    decreases |list|
  {
    if list != [] {
      var n := |list| - 1;
      FillSets(cols, list[..n], before, raise, c);
      FillOneSets(Fill(cols, list[..n], before, raise), list[n], before, raise, c);
      assert list == list[..n] + [list[n]];
    }
  }

  lemma {:induction false} FillElsewhere(cols: Columns, list: seq<nat>, before: bool, raise: bool, c: nat)
    requires cols.Valid() && forall i :: 0 <= i < |list| ==> list[i] + 1 < |cols.values|
    ensures c < |cols.values| && c !in list ==> Fill(cols, list, before, raise).values[c] == cols.values[c]
    decreases |list|
  {
    if list != [] {
      var n := |list| - 1;
      FillElsewhere(cols, list[..n], before, raise, c);
      FillOneSets(Fill(cols, list[..n], before, raise), list[n], before, raise, c);
    }
  }

  function UpTo(n: nat): (r: seq<nat>)
    ensures |r| == n && forall i :: 0 <= i < n ==> r[i] == i
  {
    seq(n, i => i)
  }

  // ------------------------------------------------------------ inserts and deletes

  /** The table fits in the arrays. */
  ghost predicate Fitting(table: Table, cols: Columns)
    requires cols.Valid()
  {
    && |table.columns| < |cols.values|
    && (forall i :: 0 <= i < |table.pk| ==> table.pk[i] < |table.columns|)
  }

  ghost predicate InsertCompleted(s: Settings, table: Table, start: Columns, end: Columns)
    requires start.Valid() && Fitting(table, start)
  {
    if !s.format.CHANGED? then end == Fill(start, UpTo(|table.columns|), false, true)
    else exists mid :: Walked(s, Insert(table), start, mid) && end == Fill(mid, table.pk, false, true)
  }

  ghost predicate DeleteCompleted(s: Settings, table: Table, start: Columns, end: Columns)
    requires start.Valid() && Fitting(table, start)
  {
    if !s.format.CHANGED? then end == Fill(start, UpTo(|table.columns|), true, false)
    else exists mid :: Walked(s, Delete(table), start, mid) && end == Fill(mid, table.pk, true, false)
  }

  /** The printed insert makes the same row, where columns that are not printed are NULL; in the full
      formats all columns are printed. */
  lemma InsertKeepsRow(s: Settings, table: Table, start: Columns, end: Columns, c: nat)
    requires start.Valid() && Fitting(table, start) && InsertCompleted(s, table, start, end)
    ensures end.Valid() && Inserted(end, c) == Inserted(start, c)
    ensures !s.format.CHANGED? ==> (end.IsSet(c) <==> c < |table.columns| || start.IsSet(c))
    ensures c in table.pk ==> end.IsSet(c)
  {
    if !s.format.CHANGED? {
      FillKeepsRow(start, UpTo(|table.columns|), false, true, c);
      FillSets(start, UpTo(|table.columns|), false, true, c);
      assert c < |table.columns| ==> UpTo(|table.columns|)[c] == c;
    } else {
      var mid :| Walked(s, Insert(table), start, mid) && end == Fill(mid, table.pk, false, true);
      InsertPruned(s, table, start, mid, c);
      FillKeepsRow(mid, table.pk, false, true, c);
      FillSets(mid, table.pk, false, true, c);
    }
  }

  /** The same for the row that a delete removes. */
  lemma DeleteKeepsRow(s: Settings, table: Table, start: Columns, end: Columns, c: nat)
    requires start.Valid() && Fitting(table, start) && DeleteCompleted(s, table, start, end)
    ensures end.Valid() && Deleted(end, c) == Deleted(start, c)
    ensures !s.format.CHANGED? ==> (end.IsSet(c) <==> c < |table.columns| || start.IsSet(c))
    ensures c in table.pk ==> end.IsSet(c)
  {
    if !s.format.CHANGED? {
      FillKeepsRow(start, UpTo(|table.columns|), true, false, c);
      FillSets(start, UpTo(|table.columns|), true, false, c);
      assert c < |table.columns| ==> UpTo(|table.columns|)[c] == c;
    } else {
      var mid :| Walked(s, Delete(table), start, mid) && end == Fill(mid, table.pk, true, false);
      DeletePruned(s, table, start, mid, c);
      FillKeepsRow(mid, table.pk, true, false, c);
      FillSets(mid, table.pk, true, false, c);
    }
  }

  /** In the format that prints what there is, exactly these columns of an insert are printed: those
      of the key, and of the others that were collected those that are not NULL. */
  lemma InsertPrints(s: Settings, table: Table, start: Columns, end: Columns, c: nat)
    requires start.Valid() && Fitting(table, start) && InsertCompleted(s, table, start, end) && s.format.CHANGED?
    ensures end.Valid()
    ensures start.Visited(c) ==>
              && c < |table.columns|
              && (end.IsSet(c) <==> table.columns[c].numPk > 0 || c in table.pk
                                    || (start.values[c].after.Some? && |start.values[c].after.value| > 0))
    ensures !start.Visited(c) ==> (end.IsSet(c) <==> start.IsSet(c) || c in table.pk)
    ensures start.Visited(c) && c !in table.pk ==>
              end.values[c] == if end.IsSet(c) then start.values[c] else start.values[c].(after := None, afterSupp := None)
  {
    var mid :| Walked(s, Insert(table), start, mid) && end == Fill(mid, table.pk, false, true);
    FillSets(mid, table.pk, false, true, c);
    FillElsewhere(mid, table.pk, false, true, c);
    if start.Visited(c) {
      assert !VisitOf(s, Insert(table), start, c).Fail?;
    }
  }

  /** The same for a delete. */
  lemma DeletePrints(s: Settings, table: Table, start: Columns, end: Columns, c: nat)
    requires start.Valid() && Fitting(table, start) && DeleteCompleted(s, table, start, end) && s.format.CHANGED?
    ensures end.Valid()
    ensures start.Visited(c) ==>
              && c < |table.columns|
              && (end.IsSet(c) <==> table.columns[c].numPk > 0 || c in table.pk
                                    || (start.values[c].before.Some? && |start.values[c].before.value| > 0))
    ensures !start.Visited(c) ==> (end.IsSet(c) <==> start.IsSet(c) || c in table.pk)
    ensures start.Visited(c) && c !in table.pk ==>
              end.values[c] == if end.IsSet(c) then start.values[c] else start.values[c].(before := None, beforeSupp := None)
  {
    var mid :| Walked(s, Delete(table), start, mid) && end == Fill(mid, table.pk, true, false);
    FillSets(mid, table.pk, true, false, c);
    FillElsewhere(mid, table.pk, true, false, c);
    if start.Visited(c) {
      assert !VisitOf(s, Delete(table), start, c).Fail?;
    }
  }

  // ------------------------------------------------------------ releasing

  /** Columns that are not set have no images. */
  ghost predicate Tidy(cols: Columns)
    requires cols.Valid()
  {
    forall c :: 0 <= c < |cols.values| && !cols.IsSet(c) ==> cols.values[c] == NOTHING
  }

  /** Every set column is in a word that the loops reach. */
  ghost predicate Reached(cols: Columns)
    requires cols.Valid()
  {
    forall c: nat :: cols.IsSet(c) ==> c / BITS <= cols.max / BITS
  }

  ghost predicate Cleared(cols: Columns)
    requires cols.Valid()
  {
    forall c :: 0 <= c < |cols.values| ==> !cols.IsSet(c) && cols.values[c] == NOTHING
  }

  /** `releaseValues` clears everything if and only if the loops reach every set column. */
  lemma ReleaseClears(s: Settings, start: Columns, end: Columns)
    requires start.Valid() && Tidy(start) && Walked(s, Release, start, end)
    ensures Cleared(end) <==> Reached(start)
  {
    if Cleared(end) {
      forall c: nat | start.IsSet(c) ensures c / BITS <= start.max / BITS {
        assert !end.IsSet(c);
      }
    } else {
      var c :| 0 <= c < |end.values| && !(!end.IsSet(c) && end.values[c] == NOTHING);
      assert start.IsSet(c);
    }
  }

  lemma {:induction false} FillRaises(cols: Columns, list: seq<nat>)
    requires cols.Valid() && Reached(cols) && forall i :: 0 <= i < |list| ==> list[i] + 1 < |cols.values|
    ensures Reached(Fill(cols, list, false, true))
    decreases |list|
  {
    if list != [] {
      var n := |list| - 1;
      FillRaises(cols, list[..n]);
      var mid := Fill(cols, list[..n], false, true);
      var end := FillOne(mid, list[n], false, true);
      forall c: nat | end.IsSet(c) ensures c / BITS <= end.max / BITS {
        FillOneSets(mid, list[n], false, true, c);
      }
    }
  }

  /** After an insert the loops reach every set column, so that the next release clears everything. */
  lemma InsertIsReached(s: Settings, table: Table, start: Columns, end: Columns)
    requires start.Valid() && Fitting(table, start) && Reached(start) && InsertCompleted(s, table, start, end)
    ensures Reached(end)
  {
    if !s.format.CHANGED? {
      FillRaises(start, UpTo(|table.columns|));
    } else {
      var mid :| Walked(s, Insert(table), start, mid) && end == Fill(mid, table.pk, false, true);
      WalkedIsReached(s, Insert(table), start, mid);
      FillRaises(mid, table.pk);
    }
  }

  lemma WalkedIsReached(s: Settings, pass: Pass, start: Columns, end: Columns)
    requires start.Valid() && Reached(start) && Walked(s, pass, start, end)
    ensures Reached(end)
  {
    forall c: nat | end.IsSet(c) ensures c / BITS <= end.max / BITS {
      assert start.IsSet(c);
    }
  }

  lemma {:induction false} FillKeepsMax(cols: Columns, list: seq<nat>, before: bool)
    requires cols.Valid() && forall i :: 0 <= i < |list| ==> list[i] + 1 < |cols.values|
    ensures Fill(cols, list, before, false).max == cols.max
    decreases |list|
  {
    if list != [] {
      FillKeepsMax(cols, list[..|list| - 1], before);
    }
  }

  /** The columns that a delete completes. */
  function ToComplete(s: Settings, table: Table): seq<nat> {
    if s.format.CHANGED? then table.pk else UpTo(|table.columns|)
  }

  /** A delete does not raise `valuesMax`: afterwards the loops reach every set column if and only if
      they already reached every column to complete. */
  lemma DeleteIsReached(s: Settings, table: Table, start: Columns, end: Columns)
    requires start.Valid() && Fitting(table, start) && Reached(start) && DeleteCompleted(s, table, start, end)
    ensures end.Valid()
    ensures Reached(end) <==> forall i :: 0 <= i < |ToComplete(s, table)| ==> ToComplete(s, table)[i] / BITS <= start.max / BITS
  {
    var list := ToComplete(s, table);
    var mid := start;
    if s.format.CHANGED? {
      mid :| Walked(s, Delete(table), start, mid) && end == Fill(mid, table.pk, true, false);
      WalkedIsReached(s, Delete(table), start, mid);
    }
    FillKeepsMax(mid, list, true);
    forall c: nat ensures end.IsSet(c) <==> mid.IsSet(c) || c in list {
      FillSets(mid, list, true, false, c);
    }
    if Reached(end) {
      forall i | 0 <= i < |list| ensures list[i] / BITS <= start.max / BITS {
        assert end.IsSet(list[i]);
      }
    }
  }

  /** An insert has after images only, a delete before images only. */
  ghost predicate OneSided(pass: Pass, cols: Columns)
    requires cols.Valid()
  {
    forall c :: 0 <= c < |cols.values| ==>
      && (pass.Insert? ==> cols.values[c].before.None? && cols.values[c].beforeSupp.None?)
      && (pass.Delete? ==> cols.values[c].after.None? && cols.values[c].afterSupp.None?)
  }

  lemma WalkedIsTidy(s: Settings, pass: Pass, start: Columns, end: Columns)
    requires start.Valid() && Tidy(start) && OneSided(pass, start) && Walked(s, pass, start, end)
    ensures Tidy(end)
  {
    forall c | 0 <= c < |end.values| && !end.IsSet(c) ensures end.values[c] == NOTHING {
      if start.Visited(c) {
        assert !VisitOf(s, pass, start, c).Fail?;
      }
    }
  }

  lemma {:induction false} FillIsTidy(cols: Columns, list: seq<nat>, before: bool, raise: bool)
    requires cols.Valid() && Tidy(cols) && forall i :: 0 <= i < |list| ==> list[i] + 1 < |cols.values|
    ensures Tidy(Fill(cols, list, before, raise))
    decreases |list|
  {
    if list != [] {
      var n := |list| - 1;
      FillIsTidy(cols, list[..n], before, raise);
      var mid := Fill(cols, list[..n], before, raise);
      var end := FillOne(mid, list[n], before, raise);
      forall c | 0 <= c < |end.values| && !end.IsSet(c) ensures end.values[c] == NOTHING {
        FillOneSets(mid, list[n], before, raise, c);
      }
    }
  }

  /** Releasing after an update leaves nothing behind. */
  lemma UpdateThenRelease(s: Settings, table: Option<Table>, start: Columns, mid: Columns, end: Columns)
    requires start.Valid() && Tidy(start) && Reached(start)
    requires Walked(s, Update(table), start, mid) && Walked(s, Release, mid, end)
    ensures Cleared(end)
  {
    WalkedIsTidy(s, Update(table), start, mid);
    WalkedIsReached(s, Update(table), start, mid);
    ReleaseClears(s, mid, end);
  }

  /** Releasing after an insert leaves nothing behind. */
  lemma InsertThenRelease(s: Settings, table: Table, start: Columns, mid: Columns, end: Columns)
    requires start.Valid() && Fitting(table, start) && Tidy(start) && Reached(start) && OneSided(Insert(table), start)
    requires InsertCompleted(s, table, start, mid) && mid.Valid() && Walked(s, Release, mid, end)
    ensures Cleared(end)
  {
    if s.format.CHANGED? {
      var pruned :| Walked(s, Insert(table), start, pruned) && mid == Fill(pruned, table.pk, false, true);
      WalkedIsTidy(s, Insert(table), start, pruned);
      FillIsTidy(pruned, table.pk, false, true);
    } else {
      FillIsTidy(start, UpTo(|table.columns|), false, true);
    }
    InsertIsReached(s, table, start, mid);
    ReleaseClears(s, mid, end);
  }

  /** Releasing after a delete leaves nothing behind if and only if `valuesMax` already reached every
      column that the delete completes. */
  lemma DeleteThenRelease(s: Settings, table: Table, start: Columns, mid: Columns, end: Columns)
    requires start.Valid() && Fitting(table, start) && Tidy(start) && Reached(start) && OneSided(Delete(table), start)
    requires DeleteCompleted(s, table, start, mid) && mid.Valid() && Walked(s, Release, mid, end)
    ensures Cleared(end) <==> forall i :: 0 <= i < |ToComplete(s, table)| ==> ToComplete(s, table)[i] / BITS <= start.max / BITS
  {
    if s.format.CHANGED? {
      var pruned :| Walked(s, Delete(table), start, pruned) && mid == Fill(pruned, table.pk, true, false);
      WalkedIsTidy(s, Delete(table), start, pruned);
      FillIsTidy(pruned, table.pk, true, false);
    } else {
      FillIsTidy(start, UpTo(|table.columns|), true, false);
    }
    DeleteIsReached(s, table, start, mid);
    ReleaseClears(s, mid, end);
  }

  /** What `releaseValues` leaves. */
  function Released(cols: Columns): Columns
    requires cols.Valid()
  {
    Columns(seq(|cols.words|, b requires 0 <= b < |cols.words| => if b <= cols.max / BITS then {} else cols.words[b]),
            seq(|cols.values|, c requires 0 <= c < |cols.values| => if cols.Visited(c) then NOTHING else cols.values[c]),
            cols.max)
  }

  lemma ReleasedIsWalked(s: Settings, cols: Columns)
    requires cols.Valid()
    ensures Released(cols).Valid() && Walked(s, Release, cols, Released(cols))
  {
    var r := Released(cols);
    forall c | 0 <= c < |cols.values| ensures r.IsSet(c) <==> cols.IsSet(c) && !cols.Visited(c) {
      assert c / BITS < |cols.words|;
    }
  }

  /** The columns before any value is collected. */
  function Blank(words: nat): Columns {
    Columns(seq(words, _ => {}), seq(BITS * words, _ => NOTHING), 0)
  }

  /** A delete from a table with more than 64 columns, printed in full and without any value
      collected, leaves the column 64 behind after the release. */
  lemma DeleteLeavesColumn(table: Table, words: nat)
    requires BITS < |table.columns| < BITS * words && table.pk == []
    ensures Blank(words).Valid()
    ensures var s, start := Settings(FULL_INS_DEC, false), Blank(words);
            var mid := Fill(start, UpTo(|table.columns|), true, false);
            && Fitting(table, start) && DeleteCompleted(s, table, start, mid)
            && Walked(s, Release, mid, Released(mid)) && !Cleared(Released(mid)) && Released(mid).IsSet(BITS)
  {
    var s, start := Settings(FULL_INS_DEC, false), Blank(words);
    var list := UpTo(|table.columns|);
    var mid := Fill(start, list, true, false);
    ReleasedIsWalked(s, mid);
    FillSets(start, list, true, false, BITS);
    assert list[BITS] == BITS;
    FillKeepsMax(start, list, true);
    assert !mid.Visited(BITS);
  }

  /** The images of one NOT NULL column: NULL before, one byte after. */
  const FROM_NULL := Images(NULL, None, Some([1]), None)

  /** With the flag, an update of a NOT NULL column from NULL is pruned: a row that has NULL there
      keeps it instead of the new value. */
  lemma UpdateIsLost(row: Row)
    requires row(0) == []
    ensures var s, table := Settings(CHANGED, true), Some(Table([ColumnInfo(false, 0)], []));
            var before, after := Blank(1).(words := [{0}], values := Blank(1).values[0 := FROM_NULL]), Blank(1);
            && before.Valid() && Walked(s, Update(table), before, after) && Agrees(before, row)
            && Updated(before, row, 0) == [1] && Updated(after, row, 0) == []
  {
    var s, table := Settings(CHANGED, true), Some(Table([ColumnInfo(false, 0)], []));
    var before := Blank(1).(words := [{0}], values := Blank(1).values[0 := FROM_NULL]);
    forall c | 0 <= c < BITS ensures before.IsSet(c) <==> c == 0 {
    }
    assert Walked(s, Update(table), before, Blank(1));
  }

  // ------------------------------------------------------------ collecting values

  datatype Kind = BEFORE | BEFORE_SUPP | AFTER | AFTER_SUPP

  function WithImage(im: Images, kind: Kind, data: seq<int>): Images {
    match kind
    case BEFORE => im.(before := Some(data))
    case BEFORE_SUPP => im.(beforeSupp := Some(data))
    case AFTER => im.(after := Some(data))
    case AFTER_SUPP => im.(afterSupp := Some(data))
  }

  /** `valueSet` of a value in one piece. */
  function SetValue(cols: Columns, kind: Kind, c: nat, data: seq<int>): (r: Columns)
    requires cols.Valid() && c + 1 < |cols.values|
    ensures r.Valid() && |r.words| == |cols.words|
  {
    Columns(cols.words[c / BITS := cols.words[c / BITS] + {c % BITS}],
            cols.values[c := WithImage(cols.values[c], kind, data)],
            if c >= cols.max then c + 1 else cols.max)
  }

  /** Collecting values keeps what releasing them needs. */
  lemma SetValueKeeps(cols: Columns, kind: Kind, c: nat, data: seq<int>)
    requires cols.Valid() && c + 1 < |cols.values| && Tidy(cols) && Reached(cols)
    ensures var r := SetValue(cols, kind, c, data); Tidy(r) && Reached(r) && r.IsSet(c)
  {
    var r := SetValue(cols, kind, c, data);
    forall k: nat | k < |cols.values| ensures r.IsSet(k) <==> cols.IsSet(k) || k == c {
      assert c == BITS * (c / BITS) + c % BITS && k == BITS * (k / BITS) + k % BITS;
    }
  }

  datatype Value = Value(kind: Kind, column: nat, data: seq<int>)

  /** The values of a row, one after the other. */
  function Collected(cols: Columns, vs: seq<Value>): (r: Columns)
    requires cols.Valid() && forall i :: 0 <= i < |vs| ==> vs[i].column + 1 < |cols.values|
    ensures r.Valid() && |r.words| == |cols.words|
    decreases |vs|
  {
    if vs == [] then cols
    else
      var v := vs[|vs| - 1];
      SetValue(Collected(cols, vs[..|vs| - 1]), v.kind, v.column, v.data)
  }

  /** The last value of a kind for a column. */
  function LastValue(vs: seq<Value>, kind: Kind, c: nat): Image
    decreases |vs|
  {
    if vs == [] then None
    else
      var v := vs[|vs| - 1];
      if v.kind == kind && v.column == c then Some(v.data) else LastValue(vs[..|vs| - 1], kind, c)
  }

  predicate HasValue(vs: seq<Value>, c: nat) {
    exists i :: 0 <= i < |vs| && vs[i].column == c
  }

  lemma SetValueSets(cols: Columns, kind: Kind, c: nat, data: seq<int>, k: nat)
    requires cols.Valid() && c + 1 < |cols.values|
    ensures SetValue(cols, kind, c, data).IsSet(k) <==> cols.IsSet(k) || k == c
  {
    assert c == BITS * (c / BITS) + c % BITS && k == BITS * (k / BITS) + k % BITS;
  }

  /** The columns hold the last value of each kind, and exactly the columns with a value are set. */
  lemma {:induction false} CollectedValues(words: nat, vs: seq<Value>, c: nat)
    requires words > 0 && c < BITS * words && forall i :: 0 <= i < |vs| ==> vs[i].column + 1 < BITS * words
    ensures Blank(words).Valid()
    ensures var r := Collected(Blank(words), vs);
            && (r.IsSet(c) <==> HasValue(vs, c))
            && r.values[c] == Images(LastValue(vs, BEFORE, c), LastValue(vs, BEFORE_SUPP, c),
                                     LastValue(vs, AFTER, c), LastValue(vs, AFTER_SUPP, c))
    decreases |vs|
  {
    hide HasValue, Columns.Visited;
    if vs == [] {
      NoneCollected(words, c);
    } else {
      var n := |vs| - 1;
      var v := vs[n];
      CollectedValues(words, vs[..n], c);
      SetValueSets(Collected(Blank(words), vs[..n]), v.kind, v.column, v.data, c);
      HasValueMore(vs, c);
    }
  }

  lemma NoneCollected(words: nat, c: nat)
    requires words > 0 && c < BITS * words
    ensures Blank(words).Valid() && !Blank(words).IsSet(c) && Blank(words).values[c] == NOTHING && !HasValue([], c)
  {
  }

  lemma HasValueMore(vs: seq<Value>, c: nat)
    requires vs != []
    ensures HasValue(vs, c) <==> HasValue(vs[..|vs| - 1], c) || vs[|vs| - 1].column == c
  {
    var n := |vs| - 1;
    if HasValue(vs[..n], c) {
      var i :| 0 <= i < n && vs[..n][i].column == c;
      assert vs[i].column == c;
    }
    if HasValue(vs, c) && vs[n].column != c {
      var i :| 0 <= i < |vs| && vs[i].column == c;
      assert vs[..n][i].column == c;
    }
  }

  /** The row of an insert is the one that was collected, and so is the row of a delete. */
  lemma CollectedRow(words: nat, vs: seq<Value>, c: nat)
    requires words > 0 && c < BITS * words && forall i :: 0 <= i < |vs| ==> vs[i].column + 1 < BITS * words
    ensures Blank(words).Valid()
    ensures Inserted(Collected(Blank(words), vs), c) == Meaning(LastValue(vs, AFTER, c))
    ensures Deleted(Collected(Blank(words), vs), c) == Meaning(LastValue(vs, BEFORE, c))
  {
    CollectedValues(words, vs, c);
    if !HasValue(vs, c) {
      NoValue(vs, AFTER, c);
      NoValue(vs, BEFORE, c);
    }
  }

  lemma {:induction false} NoValue(vs: seq<Value>, kind: Kind, c: nat)
    requires !HasValue(vs, c)
    ensures LastValue(vs, kind, c).None?
    decreases |vs|
  {
    if vs != [] {
      var n := |vs| - 1;
      assert vs[n].column != c;
      NoValue(vs[..n], kind, c);
    }
  }

  // ------------------------------------------------------------ the arrays

  ghost predicate IsLowest(word: set<nat>, p: nat) {
    p in word && forall q :: q in word ==> p <= q
  }

  /** `ffsll(word) - 1` */
  function Lowest(word: set<nat>): (p: nat)
    requires word != {}
    ensures IsLowest(word, p)
  {
    LowestExists(word);
    var p :| p in word && forall q :: q in word ==> p <= q;
    p
  }

  lemma {:induction false} LowestExists(word: set<nat>)
    requires word != {}
    ensures exists p :: IsLowest(word, p)
    decreases |word|
  {
    var p :| p in word;
    var rest := word - {p};
    if rest == {} {
      assert word == {p};
      assert IsLowest(word, p);
    } else {
      LowestExists(rest);
      var least :| IsLowest(rest, least);
      LowestOfMore(word, p, least);
    }
  }

  lemma LowestOfMore(word: set<nat>, p: nat, least: nat)
    requires p in word && IsLowest(word - {p}, least)
    ensures IsLowest(word, if p < least then p else least)
  {
    forall q | q in word ensures (if p < least then p else least) <= q {
      assert q == p || q in word - {p};
    }
  }

  class RowValues {
    var valuesSet: seq<set<nat>>
    var values: seq<Images>
    var valuesMax: nat

    ghost function Now(): Columns
      reads this
    {
      Columns(valuesSet, values, valuesMax)
    }

    constructor (words: nat)
      requires words > 0
      ensures Now().Valid() && Cleared(Now()) && valuesMax == 0
    {
      valuesSet := seq(words, _ => {});
      values := seq(BITS * words, _ => NOTHING);
      valuesMax := 0;
    }

    /** `valueSet` */
    method ValueSet(kind: Kind, column: nat, data: seq<int>)
      requires Now().Valid() && column + 1 < |values|
      modifies this
      ensures Now() == SetValue(old(Now()), kind, column, data)
    {
      var base, pos := column / BITS, column % BITS;
      if pos !in valuesSet[base] {
        valuesSet := valuesSet[base := valuesSet[base] + {pos}];
      } else {
        assert valuesSet[base] + {pos} == valuesSet[base];
        assert valuesSet == valuesSet[base := valuesSet[base] + {pos}];
      }
      if column >= valuesMax {
        valuesMax := column + 1;
      }
      values := values[column := WithImage(values[column], kind, data)];
    }

    /** One set column. */
    method Treat(s: Settings, pass: Pass, base: nat, pos: nat) returns (error: nat)
      requires Now().Valid() && base < |valuesSet| && pos < BITS && BITS * base + pos < |values|
      modifies this
      ensures var v := VisitOf(s, pass, old(Now()), BITS * base + pos);
              if v.Fail? then error == v.code != 0 && Now() == old(Now()) else error == 0 && Now() == Put(old(Now()), base, pos, v)
    {
      var column := BITS * base + pos;
      error := 0;
      match VisitColumn(s, pass, column, values[column]) {
        case Keep(images) =>
          values := values[column := images];
        case Remove(images) =>
          valuesSet := valuesSet[base := valuesSet[base] - {pos}];
          values := values[column := images];
        case Fail(code) =>
          error := code;
      }
    }

    /** The loop over the set bits of the words up to `valuesMax`. */
    method Walk(s: Settings, pass: Pass) returns (error: nat)
      requires Now().Valid()
      modifies this
      ensures error == 0 ==> Walked(s, pass, old(Now()), Now())
      ensures error != 0 ==> exists c: nat :: old(Now()).Visited(c) && VisitOf(s, pass, old(Now()), c) == Fail(error)
    {
      hide VisitColumn, Put, WalkedUpTo, Walked;
      ghost var before := Now();
      var base, baseMax := 0, valuesMax / BITS;
      error := 0;
      assert WalkedUpTo(s, pass, before, Now(), 0, before.words[0]) by { WalkBegins(s, pass, before); }
      while base <= baseMax
        invariant base <= baseMax + 1 && baseMax == before.max / BITS
        invariant base <= baseMax ==> WalkedUpTo(s, pass, before, Now(), base, before.words[base])
        invariant base > baseMax ==> Walked(s, pass, before, Now())
      {
        WalkIsValid(s, pass, before, Now(), base, before.words[base]);
        WordUntouched(s, pass, before, Now(), base);
        var rest := valuesSet[base];
        while rest != {}
          invariant rest <= before.words[base] && WalkedUpTo(s, pass, before, Now(), base, rest)
          decreases |rest|
        {
          var pos := Lowest(rest);
          WalkIsValid(s, pass, before, Now(), base, rest);
          WalkStep(s, pass, before, Now(), base, rest, pos);
          rest := rest - {pos};
          error := Treat(s, pass, base, pos);
          if error != 0 {
            assert VisitOf(s, pass, before, BITS * base + pos) == Fail(error);
            return;
          }
        }
        WordStep(s, pass, before, Now(), base);
        base := base + 1;
      }
    }

    /** `releaseValues` */
    method ReleaseValues()
      requires Now().Valid()
      modifies this
      ensures valuesMax == 0 && exists end :: Walked(ANY, Release, old(Now()), end) && Now() == end.(max := 0)
    {
      var error := Walk(ANY, Release);
      assert error == 0;
      ghost var end := Now();
      valuesMax := 0;
      assert Now() == end.(max := 0);
    }

    /** The update branch; with compressed images nothing is done. */
    method CompleteUpdate(s: Settings, table: Option<Table>, compressed: bool) returns (error: nat)
      requires Now().Valid()
      modifies this
      ensures compressed ==> error == 0 && Now() == old(Now())
      ensures !compressed && error == 0 ==> Walked(s, Update(table), old(Now()), Now())
      ensures error != 0 ==> error == 50073 && table.Some? && exists c: nat :: old(Now()).Visited(c) && c >= |table.value.columns|
    {
      error := 0;
      if !compressed {
        error := Walk(s, Update(table));
      }
    }

    /** A missing column becomes NULL. */
    method FillColumn(column: nat, before: bool, raise: bool)
      requires Now().Valid() && column + 1 < |values|
      modifies this
      ensures Now() == FillOne(old(Now()), column, before, raise)
    {
      var base, pos := column / BITS, column % BITS;
      if pos in valuesSet[base] {
        return;
      }
      valuesSet := valuesSet[base := valuesSet[base] + {pos}];
      if before {
        values := values[column := values[column].(before := NULL)];
      } else {
        values := values[column := values[column].(after := NULL)];
      }
      if raise && column >= valuesMax {
        valuesMax := column + 1;
      }
    }

    /** Missing columns of a list become NULL. */
    method FillColumns(list: seq<nat>, before: bool, raise: bool)
      requires Now().Valid() && forall i :: 0 <= i < |list| ==> list[i] + 1 < |values|
      modifies this
      ensures Now() == Fill(old(Now()), list, before, raise)
    {
      hide FillOne;
      for i := 0 to |list|
        invariant Now().Valid() && |values| == old(|values|) && Now() == Fill(old(Now()), list[..i], before, raise)
      {
        assert list[..i + 1][..i] == list[..i];
        FillColumn(list[i], before, raise);
      }
      assert list[..|list|] == list;
    }

    /** The insert branch. */
    method CompleteInsert(s: Settings, table: Table) returns (error: nat)
      requires Now().Valid() && Fitting(table, Now())
      modifies this
      ensures error == 0 ==> InsertCompleted(s, table, old(Now()), Now())
      ensures error != 0 ==> error == OUTSIDE_TABLE && s.format.CHANGED?
                             && exists c: nat :: old(Now()).Visited(c) && c >= |table.columns|
    {
      error := 0;
      if !s.format.CHANGED? {
        FillColumns(UpTo(|table.columns|), false, true);
      } else {
        error := Walk(s, Insert(table));
        if error == 0 {
          FillColumns(table.pk, false, true);
        }
      }
    }

    /** The delete branch. */
    method CompleteDelete(s: Settings, table: Table) returns (error: nat)
      requires Now().Valid() && Fitting(table, Now())
      modifies this
      ensures error == 0 ==> DeleteCompleted(s, table, old(Now()), Now())
      ensures error != 0 ==> error == OUTSIDE_TABLE && s.format.CHANGED?
                             && exists c: nat :: old(Now()).Visited(c) && c >= |table.columns|
    {
      error := 0;
      if !s.format.CHANGED? {
        FillColumns(UpTo(|table.columns|), true, false);
      } else {
        error := Walk(s, Delete(table));
        if error == 0 {
          FillColumns(table.pk, true, false);
        }
      }
    }
  }

  /** Releasing does not depend on the settings. */
  const ANY := Settings(CHANGED, false)

  lemma WalkIsValid(s: Settings, pass: Pass, before: Columns, now: Columns, base: nat, rest: set<nat>)
    requires before.Valid() && WalkedUpTo(s, pass, before, now, base, rest)
    ensures now.Valid() && |now.words| == |before.words| && |now.values| == |before.values|
  {
  }

  lemma WalkBegins(s: Settings, pass: Pass, before: Columns)
    requires before.Valid()
    ensures WalkedUpTo(s, pass, before, before, 0, before.words[0])
  {
  }
}
