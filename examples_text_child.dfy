/**
 * Worked instances of the list block's behaviour, over a text child block
 * whose value is the string submitted at its prefix and whose clean rejects
 * the empty string.
 */
module ListBlockExamples {
  import opened Wrappers
  import opened ChildBlocks
  import opened ListErrors
  import opened ListBlocks
  import opened Decimal
  import opened OrderSort

  function TextChild(): ChildBlock<string, string, string>
  {
    ChildBlock(
      "",
      raw => raw,
      text => text,
      text => if text == "" then Failure("This field is required.") else Success(text),
      (data: FormData, files: Files, prefix: string) => if prefix in data then data[prefix] else "",
      text => [text])
  }

  /** Three slots submitted with orders 2, 0 and 1; the third one is marked deleted. */
  function ReorderedSubmission(): FormData
  {
    map[
      "items-count" := "3",
      "items-0-deleted" := "", "items-0-order" := "2", "items-0-value" := "A",
      "items-1-deleted" := "", "items-1-order" := "0", "items-1-value" := "B",
      "items-2-deleted" := "1", "items-2-order" := "1", "items-2-value" := "C"]
  }

  lemma SubmissionFieldNames()
    ensures CountKey("items") == "items-count"
    ensures DeletedKey("items", 0) == "items-0-deleted" && OrderKey("items", 0) == "items-0-order"
    ensures DeletedKey("items", 1) == "items-1-deleted" && OrderKey("items", 1) == "items-1-order"
    ensures DeletedKey("items", 2) == "items-2-deleted"
    ensures ChildPrefix(MemberPrefix("items", 0)) == "items-0-value"
    ensures ChildPrefix(MemberPrefix("items", 1)) == "items-1-value"
  {
    assert NatToDecimal(0) == "0" && NatToDecimal(1) == "1" && NatToDecimal(2) == "2";
  }

  lemma SubmissionSlots()
    ensures ReadSlots(TextChild(), ReorderedSubmission(), map[], "items", 3) == Success([(2, "A"), (0, "B")])
  {
    var data, files: Files := ReorderedSubmission(), map[];
    SubmissionFieldNames();
    assert ParseInt("2") == Some(2) && ParseInt("0") == Some(0);
    assert ReadSlot(TextChild(), data, files, "items", 0) == Success(Some((2, "A")));
    assert ReadSlot(TextChild(), data, files, "items", 1) == Success(Some((0, "B")));
    assert ReadSlot(TextChild(), data, files, "items", 2) == Success(None);
    var none: seq<(int, string)> := [];
    assert ReadSlots(TextChild(), data, files, "items", 0) == Success(none);
    assert none + [(2, "A")] == [(2, "A")];
    assert ReadSlots(TextChild(), data, files, "items", 1) == Success([(2, "A")]);
    assert [(2, "A")] + [(0, "B")] == [(2, "A"), (0, "B")];
    assert ReadSlots(TextChild(), data, files, "items", 2) == Success([(2, "A"), (0, "B")]);
  }

  /** The submission decodes to the second slot's value followed by the first's. */
  lemma DecodeReordersAndDropsDeleted()
    ensures DecodeFormData(TextChild(), ReorderedSubmission(), map[], "items") == Success(["B", "A"])
  {
    SubmissionFieldNames();
    SubmissionSlots();
    assert ParseInt("3") == Some(3);
    assert ReorderedSubmission()[CountKey("items")] == "3";
    assert SortByOrder([(2, "A"), (0, "B")]) == [(0, "B"), (2, "A")];
    assert Values([(0, "B"), (2, "A")]) == ["B", "A"];
  }

  /** Two empty items around a good one: errors at exactly indices 0 and 2. */
  lemma CleanReportsEveryBadItem()
    ensures CleanOutcome(TextChild(), ListOptions(None, None), ["", "x", ""]) ==
      Failure(map[ItemIndex(0) := [ChildError("This field is required.")],
                  ItemIndex(2) := [ChildError("This field is required.")]])
  {
    var value := ["", "x", ""];
    var required: ErrorList<string> := [ChildError("This field is required.")];
    var errors := ItemErrors(TextChild(), value);
    assert 0 in errors && 2 in errors && 1 !in errors;
    assert errors == map[0 := required, 2 := required];
    var params := ValidationErrorParams(errors, []);
    assert forall k :: k in params <==> k == ItemIndex(0) || k == ItemIndex(2);
    assert params == map[ItemIndex(0) := required, ItemIndex(2) := required];
    assert CleanOutcome(TextChild(), ListOptions(None, None), value) == Failure(params);
  }
}
