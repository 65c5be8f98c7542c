/**
 * "Save schema": turning the draft (the `temp_fields` dict of `name_{i}` and
 * `type_{i}` entries, here keyed by the index `i`) into a committed schema.
 */
module SchemaCommit {
  import opened Outcomes
  import opened Text
  import opened Values
  import opened Schemas

  /** Why a draft cannot be saved; `position` is 1-based, as the message shows it. */
  datatype SchemaError = EmptyName(position: nat) | DuplicateName(name: string)

  /** The messages the page shows for each error. */
  function SchemaMessage(e: SchemaError): string {
    match e
    case EmptyName(pos) => "Variable name #" + ShowNat(pos) + " is empty."
    case DuplicateName(nm) => "Duplicate variable name: '" + nm + "'."
  }

  /** Different errors give different messages. */
  lemma SchemaMessageInjective(e1: SchemaError, e2: SchemaError)
    requires SchemaMessage(e1) == SchemaMessage(e2)
    ensures e1 == e2
  {
    var m := SchemaMessage(e1);
    match e1
    case EmptyName(p1) =>
      assert m[0] == 'V';
      if e2.EmptyName? {
        var d1, d2 := ShowNat(p1), ShowNat(e2.position);
        assert |d1| == |d2|;
        assert d1 == m[15..15 + |d1|] == d2;
        ReadShowNat(p1);
        ReadShowNat(e2.position);
      }
    case DuplicateName(n1) =>
      assert m[0] == 'D';
      if e2.DuplicateName? {
        assert n1 == m[26..|m| - 2] == e2.name;
      }
  }

  /** `temp_fields.get(f'name_{i}', '')`. */
  function NameAt(names: map<nat, string>, i: nat): string {
    if i in names then names[i] else ""
  }

  /** `temp_fields.get(f'type_{i}', 'short text')`. */
  function TypeAt(types: map<nat, FieldType>, i: nat): FieldType {
    if i in types then types[i] else ShortText
  }

  /** The draft slots `0 .. n-1` as fields, each name stripped. */
  function Draft(names: map<nat, string>, types: map<nat, FieldType>, n: nat): (d: Schema)
    ensures |d| == n
  {
    seq(n, i requires 0 <= i < n => Field(Strip(NameAt(names, i)), TypeAt(types, i)))
  }

  /**
   * Every draft name is already stripped, and it is empty exactly when the
   * name typed into its slot is all whitespace (or the slot was never filled).
   */
  lemma DraftNames(names: map<nat, string>, types: map<nat, FieldType>, n: nat)
    ensures forall i :: 0 <= i < n ==>
      Strip(Draft(names, types, n)[i].name) == Draft(names, types, n)[i].name
      && (Draft(names, types, n)[i].name == "" <==> AllSpace(NameAt(names, i)))
  {
    forall i | 0 <= i < n
      ensures Strip(Draft(names, types, n)[i].name) == Draft(names, types, n)[i].name
      ensures Draft(names, types, n)[i].name == "" <==> AllSpace(NameAt(names, i))
    {
      StripIdempotent(NameAt(names, i));
      StripEmptyIff(NameAt(names, i));
    }
  }

  /**
   * The scan of the draft in order: each field is appended to the new schema,
   * and the first empty or already-seen name stops the scan.
   */
  function Scan(draft: Schema): Result<Schema, SchemaError> {
    if draft == [] then Ok([])
    else
      var k := |draft|;
      var nm := draft[k - 1].name;
      match Scan(draft[..k - 1])
      case Err(e) => Err(e)
      case Ok(s) =>
        if nm == "" then Err(EmptyName(k))
        else if nm in Names(s) then Err(DuplicateName(nm))
        else Ok(s + [draft[k - 1]])
  }

  /** Slot `i` stops the scan: its name is empty or repeats an earlier one. */
  predicate BadAt(draft: Schema, i: nat)
    requires i < |draft|
  {
    draft[i].name == "" || exists j :: 0 <= j < i && draft[j].name == draft[i].name
  }

  /** The error the scan reports when it stops at slot `i`. */
  function ErrorAt(draft: Schema, i: nat): SchemaError
    requires i < |draft|
  {
    if draft[i].name == "" then EmptyName(i + 1) else DuplicateName(draft[i].name)
  }

  /** A successful scan installs the draft itself: every slot, in draft order. */
  lemma {:induction false} ScanSuccess(draft: Schema, s: Schema)
    requires Scan(draft) == Ok(s)
    ensures s == draft
  {
    if draft != [] {
      var k := |draft|;
      match Scan(draft[..k - 1])
      case Ok(prev) =>
        ScanSuccess(draft[..k - 1], prev);
        assert draft == draft[..k - 1] + [draft[k - 1]];
    }
  }

  /** Every name non-empty and no two equal. */
  predicate Clean(draft: Schema) {
    (forall i :: 0 <= i < |draft| ==> draft[i].name != "") && DistinctNames(draft)
  }

  /** A draft is clean when its prefix is and its last name is non-empty and new. */
  lemma CleanSnoc(draft: Schema)
    requires draft != []
    ensures var k := |draft|;
      Clean(draft) <==> Clean(draft[..k - 1]) && draft[k - 1].name != "" && draft[k - 1].name !in Names(draft[..k - 1])
  {
    var k := |draft|;
    var pre := draft[..k - 1];
    var nm := draft[k - 1].name;
    if Clean(draft) {
      assert Clean(pre) by {
        assert forall i :: 0 <= i < k - 1 ==> pre[i] == draft[i];
      }
    }
    if Clean(pre) && nm != "" && nm !in Names(pre) {
      forall i, j | 0 <= i < j < k ensures draft[i].name != draft[j].name {
        if j < k - 1 {
          assert pre[i] == draft[i] && pre[j] == draft[j];
        } else {
          assert Names(pre)[i] == draft[i].name;
        }
      }
      forall i | 0 <= i < k ensures draft[i].name != "" {
        if i < k - 1 { assert pre[i] == draft[i]; }
      }
    }
  }

  /**
   * Saving succeeds exactly when every (stripped) draft name is non-empty
   * and no two are equal (case-sensitively).
   */
  lemma {:induction false} ScanSucceedsIff(draft: Schema)
    ensures Scan(draft).Ok? <==>
      (forall i :: 0 <= i < |draft| ==> draft[i].name != "") && DistinctNames(draft)
  {
    if draft != [] {
      var k := |draft|;
      var pre := draft[..k - 1];
      ScanSucceedsIff(pre);
      CleanSnoc(draft);
      match Scan(pre)
      case Ok(prev) =>
        ScanSuccess(pre, prev);
      case Err(_) =>
    }
  }

  /** A failed scan reports the error of the first bad slot, and every slot before it is fine. */
  lemma {:induction false} ScanFailure(draft: Schema, e: SchemaError)
    requires Scan(draft) == Err(e)
    ensures exists i :: (0 <= i < |draft| && BadAt(draft, i)
      && (forall j :: 0 <= j < i ==> !BadAt(draft, j))
      && e == ErrorAt(draft, i))
  {
    var k := |draft|;
    var pre := draft[..k - 1];
    match Scan(pre)
    case Err(_) =>
      ScanFailure(pre, e);
      var i :| 0 <= i < |pre| && BadAt(pre, i) && (forall j :: 0 <= j < i ==> !BadAt(pre, j))
        && e == ErrorAt(pre, i);
      BadAtPrefix(draft, k - 1, i);
      forall j | 0 <= j < i ensures !BadAt(draft, j) {
        BadAtPrefix(draft, k - 1, j);
      }
      assert BadAt(draft, i) && e == ErrorAt(draft, i);
    case Ok(prev) =>
      ScanFailureAtLast(draft, prev, e);
      assert BadAt(draft, k - 1);
  }

  /** A scan that fails only at the last slot reports that slot's error, and every earlier slot is fine. */
  lemma ScanFailureAtLast(draft: Schema, prev: Schema, e: SchemaError)
    requires draft != [] && Scan(draft[..|draft| - 1]) == Ok(prev) && Scan(draft) == Err(e)
    ensures BadAt(draft, |draft| - 1) && e == ErrorAt(draft, |draft| - 1)
    ensures forall j :: 0 <= j < |draft| - 1 ==> !BadAt(draft, j)
  {
    var k := |draft|;
    var pre := draft[..k - 1];
    ScanSuccess(pre, prev);
    ScanSucceedsIff(pre);
    var nm := draft[k - 1].name;
    if nm != "" {
      assert nm in Names(prev);
      var j :| 0 <= j < |prev| && Names(prev)[j] == nm;
      assert draft[j].name == nm;
    }
    assert Clean(pre);
    CleanHasNoBadSlot(pre);
    forall j | 0 <= j < k - 1 ensures !BadAt(draft, j) {
      BadAtPrefix(draft, k - 1, j);
    }
  }

  /** A clean draft has no slot that would stop the scan. */
  lemma CleanHasNoBadSlot(draft: Schema)
    requires Clean(draft)
    ensures forall j :: 0 <= j < |draft| ==> !BadAt(draft, j)
  {
    forall j | 0 <= j < |draft| ensures !BadAt(draft, j) {
      forall i | 0 <= i < j ensures draft[i].name != draft[j].name {
      }
    }
  }

  /** Whether a slot is bad depends only on the slots up to it. */
  lemma BadAtPrefix(draft: Schema, m: nat, i: nat)
    requires i < m <= |draft|
    ensures BadAt(draft[..m], i) <==> BadAt(draft, i)
  {
    assert forall j :: 0 <= j <= i ==> draft[..m][j] == draft[j];
  }

  /** Once the scan has stopped at a prefix, the whole scan reports the same error. */
  lemma {:induction false} ScanErrorPersists(draft: Schema, k: nat)
    requires k <= |draft| && Scan(draft[..k]).Err?
    ensures Scan(draft) == Scan(draft[..k])
    decreases |draft| - k
  {
    if k < |draft| {
      var n := |draft| - 1;
      assert draft[..n][..k] == draft[..k];
      ScanErrorPersists(draft[..n], k);
    } else {
      assert draft[..k] == draft;
    }
  }

  /** A saved schema is well formed: its names are stripped, non-empty and distinct. */
  lemma SavedSchemaWellFormed(names: map<nat, string>, types: map<nat, FieldType>, n: nat, s: Schema)
    requires Scan(Draft(names, types, n)) == Ok(s)
    ensures WellFormed(s)
    ensures |s| == n
    ensures forall i :: 0 <= i < n ==> s[i] == Field(Strip(NameAt(names, i)), TypeAt(types, i))
  {
    var d := Draft(names, types, n);
    ScanSuccess(d, s);
    ScanSucceedsIff(d);
    forall i | 0 <= i < n ensures Strip(s[i].name) == s[i].name {
      StripIdempotent(NameAt(names, i));
    }
  }

  /** One step of the scan over a draft extended by one field. */
  lemma ScanStep(d: Schema, s: Schema, f: Field)
    requires Scan(d) == Ok(s)
    ensures Scan(d + [f]) ==
      if f.name == "" then Err(EmptyName(|d| + 1))
      else if f.name in Names(s) then Err(DuplicateName(f.name))
      else Ok(s + [f])
  {
    assert (d + [f])[..|d|] == d;
  }

  /**
   * The save-schema loop over draft indices `0 .. numVars-1`, building
   * `new_schema` and the set `seen` of names taken so far.
   */
  method CollectSchema(names: map<nat, string>, types: map<nat, FieldType>, numVars: nat)
    returns (res: Result<Schema, SchemaError>)
    ensures res == Scan(Draft(names, types, numVars))
  {
    ghost var draft := Draft(names, types, numVars);
    var newSchema: Schema := [];
    var seen: set<string> := {};
    var i := 0;
    while i < numVars
      invariant 0 <= i <= numVars
      invariant Scan(draft[..i]) == Ok(newSchema)
      invariant seen == NameSet(newSchema)
    {
      var nm := Strip(NameAt(names, i));
      var tp := TypeAt(types, i);
      assert draft[..i + 1] == draft[..i] + [Field(nm, tp)];
      ScanStep(draft[..i], newSchema, Field(nm, tp));
      NameSetNames(newSchema, nm);
      if nm == "" {
        ScanErrorPersists(draft, i + 1);
        return Err(EmptyName(i + 1));
      }
      if nm in seen {
        ScanErrorPersists(draft, i + 1);
        return Err(DuplicateName(nm));
      }
      NameSetAppend(newSchema, Field(nm, tp));
      seen := seen + {nm};
      newSchema := newSchema + [Field(nm, tp)];
      i := i + 1;
    }
    assert draft[..i] == draft;
    res := Ok(newSchema);
  }
}
