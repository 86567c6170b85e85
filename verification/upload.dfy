/**
 * The upload page of frontend/app.js: the two page-level flags that decide
 * whether the Calculate button is enabled, the handlers that change them,
 * and the numbered rows of the results table.
 */
module Upload {
  import opened Wrappers

  /** One row of the backend's `results` list. */
  datatype ResultRow = ResultRow(itemName: string, quantity: int, unitValue: real)

  /** One row of the rendered results table. */
  datatype TableRow = TableRow(serial: nat, itemName: string, quantity: int, unitValue: real, lineTotal: real)

  /** What the `/process` request yields: a failed request (network error or a
      status that is not ok), or a decoded JSON body whose `results` and
      `total` members may be missing. */
  datatype Response =
    | RequestFailed
    | Body(results: Option<seq<ResultRow>>, total: Option<real>)

  /** JavaScript truthiness of the `total` member: missing and 0 are falsy. */
  predicate TotalPresent(total: Option<real>)
  {
    total.Some? && total.value != 0.0
  }

  /** The table row that `generateResultsTable` renders for result `index`. */
  function RowFor(index: nat, r: ResultRow): (t: TableRow)
    ensures t.serial == index + 1
    ensures t.itemName == r.itemName && t.quantity == r.quantity && t.unitValue == r.unitValue
    ensures t.lineTotal == r.quantity as real * r.unitValue
  {
    TableRow(index + 1, r.itemName, r.quantity, r.unitValue, r.quantity as real * r.unitValue)
  }

  class UploadPage {
    var filesSelected: bool
    var promptAccepted: bool
    /** The `disabled` attribute of the Calculate (process) button. */
    var buttonDisabled: bool
    /** `window.backendResults`; unset and empty are rendered alike. */
    var backendResults: seq<ResultRow>
    /** Whether the grand-total panel is shown, and the total it shows. */
    var resultsShown: bool
    var grandTotal: Option<real>
    /** Whether the "generate the item list?" prompt is shown. */
    var promptShown: bool
    var errorShown: bool
    /** The results table of the second container, when it exists. */
    var table: Option<seq<TableRow>>

    /** The button is disabled exactly when no file is chosen or the prompt was accepted. */
    ghost predicate Valid()
      reads this
    {
      buttonDisabled == (!filesSelected || promptAccepted)
    }

    /** Page load, including the initial `updateCalculateButtonState()`. */
    constructor ()
      ensures Valid()
      ensures !filesSelected && !promptAccepted && buttonDisabled
      ensures backendResults == [] && !resultsShown && grandTotal == None
      ensures !promptShown && !errorShown && table == None
    {
      filesSelected := false;
      promptAccepted := false;
      backendResults := [];
      resultsShown := false;
      grandTotal := None;
      promptShown := false;
      errorShown := false;
      table := None;
      buttonDisabled := true;
    }

    /** `updateCalculateButtonState`. */
    method UpdateCalculateButtonState()
      modifies this
      ensures buttonDisabled == (!filesSelected || promptAccepted)
      ensures Valid()
      ensures filesSelected == old(filesSelected) && promptAccepted == old(promptAccepted)
      ensures backendResults == old(backendResults) && resultsShown == old(resultsShown)
      ensures grandTotal == old(grandTotal) && promptShown == old(promptShown)
      ensures errorShown == old(errorShown) && table == old(table)
    {
      if !filesSelected || promptAccepted {
        buttonDisabled := true;
      } else {
        buttonDisabled := false;
      }
    }

    /** The two `change` handlers of the file input, run in registration order:
        record whether files are chosen, hide shown results and the prompt,
        drop the second container, forget the accepted prompt and recompute
        the button. */
    method FilesChanged(count: nat)
      modifies this
      ensures filesSelected == (count > 0) && !promptAccepted
      ensures Valid() && buttonDisabled == (count == 0)
      ensures old(resultsShown) ==> !resultsShown && !promptShown
      ensures !old(resultsShown) ==> resultsShown == old(resultsShown) && promptShown == old(promptShown)
      ensures table == None
      ensures backendResults == old(backendResults) && grandTotal == old(grandTotal)
      ensures errorShown == old(errorShown)
    {
      filesSelected := count > 0;
      if resultsShown {
        resultsShown := false;
        promptShown := false;
      }
      table := None;
      promptAccepted := false;
      UpdateCalculateButtonState();
    }

    /** The Process button's click handler, with the outcome of the request as
        a parameter. Without chosen files it stops before building a request. */
    method Process(response: Response)
      requires Valid()
      modifies this
      ensures Valid()
      ensures filesSelected == old(filesSelected) && promptAccepted == old(promptAccepted)
      ensures buttonDisabled == old(buttonDisabled) && table == old(table)
      ensures !old(filesSelected) ==>
        && backendResults == old(backendResults) && resultsShown == old(resultsShown)
        && grandTotal == old(grandTotal) && promptShown == old(promptShown)
        && errorShown == old(errorShown)
      ensures old(filesSelected) ==> match response
        case RequestFailed =>
          && backendResults == old(backendResults) && grandTotal == old(grandTotal)
          && !resultsShown && !promptShown && errorShown
        case Body(results, total) =>
          && backendResults == (if results.Some? then results.value else [])
          && (TotalPresent(total) ==>
                grandTotal == total && resultsShown && promptShown && !errorShown)
          && (!TotalPresent(total) ==>
                grandTotal == old(grandTotal) && !resultsShown && !promptShown && errorShown)
    {
      if !filesSelected {
        return;
      }
      resultsShown := false;
      errorShown := false;
      promptShown := false;
      match response {
        case RequestFailed =>
          errorShown := true;
        case Body(results, total) =>
          backendResults := if results.Some? then results.value else [];
          if !TotalPresent(total) {
            errorShown := true;
          } else {
            grandTotal := total;
            resultsShown := true;
            promptShown := true;
          }
      }
    }

    /** The "no" button: only the prompt is hidden; neither flag changes. */
    method Decline()
      requires Valid()
      modifies this
      ensures Valid() && !promptShown
      ensures filesSelected == old(filesSelected) && promptAccepted == old(promptAccepted)
      ensures buttonDisabled == old(buttonDisabled)
      ensures backendResults == old(backendResults) && resultsShown == old(resultsShown)
      ensures grandTotal == old(grandTotal) && errorShown == old(errorShown) && table == old(table)
    {
      promptShown := false;
    }

    /** The "yes" button: hide the prompt, render the results table in a second
        container, mark the prompt accepted and disable the button. */
    method Accept()
      modifies this
      ensures Valid() && promptAccepted && buttonDisabled && !promptShown
      ensures filesSelected == old(filesSelected)
      ensures table.Some? && |table.value| == |backendResults|
      ensures forall i :: 0 <= i < |backendResults| ==> table.value[i] == RowFor(i, backendResults[i])
      ensures backendResults == old(backendResults) && resultsShown == old(resultsShown)
      ensures grandTotal == old(grandTotal) && errorShown == old(errorShown)
    {
      promptShown := false;
      var rows := GenerateResultsTable();
      table := Some(rows);
      promptAccepted := true;
      UpdateCalculateButtonState();
    }

    /** `generateResultsTable`: one row per stored result, in order, numbered
        from 1, with the line total quantity times unit value. */
    method GenerateResultsTable() returns (rows: seq<TableRow>)
      ensures |rows| == |backendResults|
      ensures forall i :: 0 <= i < |rows| ==> rows[i].serial == i + 1
      ensures forall i :: 0 <= i < |rows| ==>
        && rows[i].itemName == backendResults[i].itemName
        && rows[i].quantity == backendResults[i].quantity
        && rows[i].unitValue == backendResults[i].unitValue
        && rows[i].lineTotal == backendResults[i].quantity as real * backendResults[i].unitValue
      ensures forall i :: 0 <= i < |rows| ==> rows[i] == RowFor(i, backendResults[i])
    {
      rows := [];
      var index := 0;
      while index < |backendResults|
        invariant index <= |backendResults| && |rows| == index
        invariant forall i :: 0 <= i < index ==> rows[i] == RowFor(i, backendResults[i])
      {
        rows := rows + [RowFor(index, backendResults[index])];
        index := index + 1;
      }
    }
  }
}
