/**
  The two pieces of the database set-up that shape what the handlers see:
  how create_vehicle_table cuts its SQL script into the statements it
  runs, and the trigger that lowercases every VIN written to the table.
 */
module Database {
  import opened Text
  import opened Vehicles

  /** What may reach `cursor.execute`: a non-empty text without whitespace at either end. */
  predicate IsStatement(q: string) {
    q != [] && Trimmed(q)
  }

  /** `[q.strip() for q in pieces]`: every piece stripped, in order. */
  function StripAll(pieces: seq<string>): (r: seq<string>)
    ensures |r| == |pieces|
    ensures forall i :: 0 <= i < |pieces| ==> r[i] == Strip(pieces[i])
  {
    seq(|pieces|, i requires 0 <= i < |pieces| => Strip(pieces[i]))
  }

  /** The texts that are not empty, in their order: what `if query:` lets through. */
  function NonEmpty(texts: seq<string>): (r: seq<string>)
    ensures |r| <= |texts|
    decreases |texts|
  {
    if texts == [] then []
    else
      var n := |texts| - 1;
      if texts[n] != [] then NonEmpty(texts[..n]) + [texts[n]] else NonEmpty(texts[..n])
  }

  /** The statements create_vehicle_table executes for a script. */
  function Statements(script: string): seq<string> {
    NonEmpty(StripAll(Split(script, ';')))
  }

  /** The index of the text each kept text comes from. */
  function Origins(texts: seq<string>): (idx: seq<nat>)
    ensures forall k :: 0 <= k < |idx| ==> idx[k] < |texts|
    decreases |texts|
  {
    if texts == [] then []
    else
      var n := |texts| - 1;
      if texts[n] != [] then Origins(texts[..n]) + [n] else Origins(texts[..n])
  }

  /** Kept text k is the text at index Origins[k]. */
  lemma {:induction false} OriginsSource(texts: seq<string>)
    ensures |Origins(texts)| == |NonEmpty(texts)|
    ensures forall k :: 0 <= k < |Origins(texts)| ==> NonEmpty(texts)[k] == texts[Origins(texts)[k]]
    decreases |texts|
  {
    if texts != [] {
      var n := |texts| - 1;
      var init := texts[..n];
      OriginsSource(init);
      var idx, sub := Origins(texts), Origins(init);
      var kept, subKept := NonEmpty(texts), NonEmpty(init);
      assert idx == if texts[n] != [] then sub + [n] else sub;
      assert kept == if texts[n] != [] then subKept + [texts[n]] else subKept;
      forall k | 0 <= k < |idx|
        ensures kept[k] == texts[idx[k]]
      {
        if k < |sub| {
          assert idx[k] == sub[k] && kept[k] == subKept[k];
          assert init[sub[k]] == texts[sub[k]];
        }
      }
    }
  }

  /** The origins increase: kept texts stay in the order they occur. */
  lemma {:induction false} OriginsIncrease(texts: seq<string>)
    ensures forall j, k :: 0 <= j < k < |Origins(texts)| ==> Origins(texts)[j] < Origins(texts)[k]
    decreases |texts|
  {
    if texts != [] {
      var n := |texts| - 1;
      var sub := Origins(texts[..n]);
      OriginsIncrease(texts[..n]);
      assert Origins(texts) == if texts[n] != [] then sub + [n] else sub;
    }
  }

  /** A text is kept exactly when it is not empty. */
  lemma {:induction false} OriginsComplete(texts: seq<string>)
    ensures forall i :: 0 <= i < |texts| ==> (texts[i] != [] <==> i in Origins(texts))
    decreases |texts|
  {
    if texts != [] {
      var n := |texts| - 1;
      var init := texts[..n];
      OriginsComplete(init);
      var idx, sub := Origins(texts), Origins(init);
      assert n !in sub;
      assert idx == if texts[n] != [] then sub + [n] else sub;
      forall i | 0 <= i < |texts|
        ensures texts[i] != [] <==> i in idx
      {
        if i < n {
          assert init[i] == texts[i];
          assert i in idx <==> i in sub;
        }
      }
    }
  }

  /**
    create_vehicle_table: split the script at every `;`, strip each piece,
    and execute the pieces that are not empty, one after the other.
    The cursor is modelled by the list of statements handed to it.
   */
  method CreateVehicleTable(script: string) returns (executed: seq<string>)
    ensures executed == Statements(script)
  {
    var queries := Split(script, ';');
    ghost var stripped := StripAll(queries);
    executed := [];
    for i := 0 to |queries|
      invariant executed == NonEmpty(stripped[..i])
    {
      var query := Strip(queries[i]);
      NonEmptyStep(stripped, i);
      if query != [] {
        executed := executed + [query];
      }
    }
    assert stripped[..|queries|] == stripped;
  }

  /** One more text: it is kept after the earlier ones when it is not empty. */
  lemma NonEmptyStep(texts: seq<string>, i: nat)
    requires i < |texts|
    ensures NonEmpty(texts[..i + 1])
              == if texts[i] != [] then NonEmpty(texts[..i]) + [texts[i]] else NonEmpty(texts[..i])
  {
    assert texts[..i + 1][..i] == texts[..i];
    assert texts[..i + 1][i] == texts[i];
  }

  /** Each statement is a stripped piece of the script, taken in the order the pieces occur. */
  lemma StatementsInOrder(script: string)
    ensures var pieces, idx := Split(script, ';'), Origins(StripAll(Split(script, ';')));
      && |idx| == |Statements(script)|
      && (forall k :: 0 <= k < |idx| ==> idx[k] < |pieces| && Statements(script)[k] == Strip(pieces[idx[k]]))
      && (forall j, k :: 0 <= j < k < |idx| ==> idx[j] < idx[k])
      && (forall i :: 0 <= i < |pieces| ==> (Strip(pieces[i]) != [] <==> i in idx))
  {
    var stripped := StripAll(Split(script, ';'));
    OriginsSource(stripped);
    OriginsIncrease(stripped);
    OriginsComplete(stripped);
  }

  /** Every executed statement is non-empty and has no whitespace at either end. */
  lemma StatementsAreTrimmed(script: string)
    ensures forall k :: 0 <= k < |Statements(script)| ==> IsStatement(Statements(script)[k])
  {
    var stripped := StripAll(Split(script, ';'));
    var idx := Origins(stripped);
    OriginsSource(stripped);
    OriginsComplete(stripped);
    forall k | 0 <= k < |Statements(script)|
      ensures IsStatement(Statements(script)[k])
    {
      assert idx[k] in idx;
    }
  }

  /** Stripping takes a slice, so it adds no character. */
  lemma StripAddsNothing(s: string, c: char)
    requires c !in s
    ensures c !in Strip(s)
  {
    var r := Strip(s);
    var k := StripOffset(s);
    StripSlice(s);
    forall j | 0 <= j < |r| ensures r[j] != c {
      assert r[j] == s[k + j];
    }
  }

  /** No executed statement contains a `;`. */
  lemma StatementsHaveNoSemicolon(script: string)
    ensures forall k :: 0 <= k < |Statements(script)| ==> ';' !in Statements(script)[k]
  {
    var pieces := Split(script, ';');
    var stripped := StripAll(pieces);
    var idx := Origins(stripped);
    OriginsSource(stripped);
    forall k | 0 <= k < |Statements(script)|
      ensures ';' !in Statements(script)[k]
    {
      StripAddsNothing(pieces[idx[k]], ';');
    }
  }

  /** At most one statement per `;` in the script, plus one. */
  lemma StatementCountBound(script: string)
    ensures |Statements(script)| <= Count(script, ';') + 1
  {
    SplitLength(script, ';');
  }

  /** A script without `;` runs as one statement, its stripped text, or none when blank. */
  lemma SingleStatement(script: string)
    requires ';' !in script
    ensures Statements(script) == if Strip(script) == [] then [] else [Strip(script)]
  {
    SplitWithoutSeparator(script, ';');
    var stripped := StripAll([script]);
    assert stripped == [Strip(script)];
    assert stripped[..0] == [];
  }

  /** The trigger vin_case_insensitive: the row as it is written, with its VIN lowercased. */
  function VinCaseInsensitive(row: Vehicle): (r: Vehicle)
    ensures |r.vin| == |row.vin|
    ensures forall i :: 0 <= i < |r.vin| ==> !IsUpper(r.vin[i]) && r.vin[i] == LowerChar(row.vin[i])
    ensures forall c | c in Mutable :: Column(r, c) == Column(row, c)
  {
    row.(vin := Lower(row.vin))
  }

  /** Writing a row that already went through the trigger changes nothing more. */
  lemma VinCaseInsensitiveIdempotent(row: Vehicle)
    ensures VinCaseInsensitive(VinCaseInsensitive(row)) == VinCaseInsensitive(row)
  {
    LowerIdempotent(row.vin);
  }

  /** The trigger keeps the VIN as sent exactly when it holds no uppercase letter. */
  lemma VinKeptIffLowercase(row: Vehicle)
    ensures VinCaseInsensitive(row).vin == row.vin <==> forall i :: 0 <= i < |row.vin| ==> !IsUpper(row.vin[i])
  {
    LowerFixedPoint(row.vin);
  }
}
