/**
 * ListBlock: a block whose value is an ordered list of values of one child
 * block. It validates the list item by item and against optional length
 * bounds, decodes the flat form fields an editor submits (count, per-slot
 * deleted flag, order and child fields) back into a list, converts lists to
 * and from their raw form, collects searchable text, and hands each list
 * member its own form prefix and errors when the form is redisplayed.
 *
 * The class keeps the configuration fixed at construction time; the
 * operations that loop are its methods, each proved equal to a specification
 * function below, and the properties are lemmas about those functions.
 */
module ListBlocks {
  import opened Wrappers
  import opened Decimal
  import opened ChildBlocks
  import opened ListErrors
  import opened OrderSort

  /** `list_options`: the optional length bounds; None is Python's None. */
  datatype ListOptions = ListOptions(maxLength: Option<int>, minLength: Option<int>)

  /** Python truthiness of an optional integer: None and 0 are false, every other integer true. */
  predicate Truthy(n: Option<int>) {
    n.Some? && n.value != 0
  }

  /** The maximum-length check of `clean`: a truthy bound smaller than the length. */
  predicate MaxViolated(options: ListOptions, length: nat) {
    Truthy(options.maxLength) && options.maxLength.value < length
  }

  /** The minimum-length check of `clean`: a truthy bound larger than the length. */
  predicate MinViolated(options: ListOptions, length: nat) {
    Truthy(options.minLength) && options.minLength.value > length
  }

  /**
   * The block's default: the configured `meta.default` when there is one,
   * otherwise a list holding the child's default as its only item.
   */
  function DefaultValue<V>(metaDefault: Option<seq<V>>, childDefault: V): (d: seq<V>)
    ensures metaDefault.None? ==> |d| == 1 && d[0] == childDefault
    ensures metaDefault.Some? ==> d == metaDefault.value
  {
    match metaDefault
    case Some(configured) => configured
    case None => [childDefault]
  }

  // -------------------------------------------------------------------------
  // Form field names

  /** `"%s-count" % prefix` */
  function CountKey(prefix: string): string {
    prefix + "-count"
  }

  /** `"%s-%d" % (prefix, i)`: the prefix of list member `i`. */
  function MemberPrefix(prefix: string, index: nat): string {
    prefix + "-" + NatToDecimal(index)
  }

  /** `"%s-%d-deleted" % (prefix, i)` */
  function DeletedKey(prefix: string, index: nat): string {
    MemberPrefix(prefix, index) + "-deleted"
  }

  /** `"%s-%d-order" % (prefix, i)` */
  function OrderKey(prefix: string, index: nat): string {
    MemberPrefix(prefix, index) + "-order"
  }

  /** `"%s-value" % prefix`: where a member binds its child block. */
  function ChildPrefix(memberPrefix: string): string {
    memberPrefix + "-value"
  }

  /** Distinct list members get distinct `prefix-i` prefixes. */
  lemma MemberPrefixInjective(prefix: string, i: nat, j: nat)
    ensures MemberPrefix(prefix, i) == MemberPrefix(prefix, j) ==> i == j
  {
    if MemberPrefix(prefix, i) == MemberPrefix(prefix, j) {
      var n := |prefix| + 1;
      assert NatToDecimal(i) == MemberPrefix(prefix, i)[n..];
      assert NatToDecimal(j) == MemberPrefix(prefix, j)[n..];
      NatToDecimalInjective(i, j);
    }
  }

  /**
   * Distinct list members have distinct deleted fields, distinct order fields
   * and distinct child prefixes, so their form fields never clash.
   */
  lemma SlotFieldsInjective(prefix: string, i: nat, j: nat)
    ensures DeletedKey(prefix, i) == DeletedKey(prefix, j) ==> i == j
    ensures OrderKey(prefix, i) == OrderKey(prefix, j) ==> i == j
    ensures ChildPrefix(MemberPrefix(prefix, i)) == ChildPrefix(MemberPrefix(prefix, j)) ==> i == j
  {
    var a, b := MemberPrefix(prefix, i), MemberPrefix(prefix, j);
    if DeletedKey(prefix, i) == DeletedKey(prefix, j) {
      assert a == DeletedKey(prefix, i)[..|a|] && b == DeletedKey(prefix, j)[..|b|];
    }
    if OrderKey(prefix, i) == OrderKey(prefix, j) {
      assert a == OrderKey(prefix, i)[..|a|] && b == OrderKey(prefix, j)[..|b|];
    }
    if ChildPrefix(a) == ChildPrefix(b) {
      assert a == ChildPrefix(a)[..|a|] && b == ChildPrefix(b)[..|b|];
    }
    MemberPrefixInjective(prefix, i, j);
  }

  /** The count field is never a slot's deleted or order field. */
  lemma CountKeyIsNoSlotKey(prefix: string, i: nat)
    ensures CountKey(prefix) != DeletedKey(prefix, i)
    ensures CountKey(prefix) != OrderKey(prefix, i)
  {
  }

  // -------------------------------------------------------------------------
  // clean

  /** The per-item errors of `clean`: `ErrorList([e])` under every index whose child clean fails. */
  function ItemErrors<V, R, E>(child: ChildBlock<V, R, E>, items: seq<V>): map<nat, ErrorList<E>>
  {
    map i: nat | i < |items| && child.clean(items[i]).Failure? :: [ChildError(child.clean(items[i]).error)]
  }

  /** The cleaned values of the items whose child clean succeeds, in order. */
  function Successes<V, R, E>(child: ChildBlock<V, R, E>, items: seq<V>): seq<V>
  {
    if items == [] then []
    else
      var last := child.clean(items[|items| - 1]);
      Successes(child, items[..|items| - 1]) + (if last.Success? then [last.value] else [])
  }

  /**
   * What `clean` returns or raises: the maximum bound first, then the minimum
   * bound, each discarding the per-item errors; then the per-item errors; and
   * only when there are none, the cleaned list.
   */
  function CleanOutcome<V, R, E>(child: ChildBlock<V, R, E>, options: ListOptions, value: seq<V>): Result<seq<V>, Params<E>>
  {
    if MaxViolated(options, |value|) then
      Failure(ValidationErrorParams(map[], [MaxReached(options.maxLength.value)]))
    else if MinViolated(options, |value|) then
      Failure(ValidationErrorParams(map[], [MinRequired(options.minLength.value)]))
    else if ItemErrors(child, value) != map[] then
      Failure(ValidationErrorParams(ItemErrors(child, value), []))
    else
      Success(Successes(child, value))
  }

  lemma ItemErrorsStep<V, R, E>(child: ChildBlock<V, R, E>, value: seq<V>, i: nat)
    requires i < |value|
    ensures ItemErrors(child, value[..i + 1]) ==
      if child.clean(value[i]).Failure? then ItemErrors(child, value[..i])[i := [ChildError(child.clean(value[i]).error)]]
      else ItemErrors(child, value[..i])
  {
  }

  lemma {:induction false} SuccessesAllOk<V, R, E>(child: ChildBlock<V, R, E>, items: seq<V>)
    requires forall i :: 0 <= i < |items| ==> child.clean(items[i]).Success?
    ensures |Successes(child, items)| == |items|
    ensures forall i :: 0 <= i < |items| ==> child.clean(items[i]) == Success(Successes(child, items)[i])
  {
    if items != [] {
      var init := items[..|items| - 1];
      assert forall i :: 0 <= i < |init| ==> init[i] == items[i];
      SuccessesAllOk(child, init);
    }
  }

  /** `clean` succeeds exactly when neither bound is violated and every item cleans. */
  lemma CleanSucceedsIff<V, R, E>(child: ChildBlock<V, R, E>, options: ListOptions, value: seq<V>)
    ensures CleanOutcome(child, options, value).Success? <==>
      && !MaxViolated(options, |value|)
      && !MinViolated(options, |value|)
      && forall i :: 0 <= i < |value| ==> child.clean(value[i]).Success?
  {
    var errors := ItemErrors(child, value);
    if forall i :: 0 <= i < |value| ==> child.clean(value[i]).Success? {
      assert forall j :: j !in errors;
      assert errors == map[];
    } else {
      var i :| 0 <= i < |value| && child.clean(value[i]).Failure?;
      assert i in errors;
    }
  }

  /**
   * A successful `clean` returns one cleaned value per item, in order: item
   * `i` of the result is what the child's clean made of item `i`.
   */
  lemma CleanSuccessValues<V, R, E>(child: ChildBlock<V, R, E>, options: ListOptions, value: seq<V>, cleaned: seq<V>)
    requires CleanOutcome(child, options, value) == Success(cleaned)
    ensures |cleaned| == |value|
    ensures forall i :: 0 <= i < |value| ==> child.clean(value[i]) == Success(cleaned[i])
  {
    CleanSucceedsIff(child, options, value);
    SuccessesAllOk(child, value);
  }

  /**
   * A violated maximum bound wins: the error carries only NON_FIELD_ERRORS,
   * whatever the items and the minimum bound are.
   */
  lemma CleanMaxReached<V, R, E>(child: ChildBlock<V, R, E>, options: ListOptions, value: seq<V>)
    requires MaxViolated(options, |value|)
    ensures CleanOutcome(child, options, value) == Failure(map[NonFieldErrors := [MaxReached(options.maxLength.value)]])
  {
  }

  /**
   * With the maximum bound met, a violated minimum bound gives an error that
   * carries only NON_FIELD_ERRORS, whatever the items are.
   */
  lemma CleanMinRequired<V, R, E>(child: ChildBlock<V, R, E>, options: ListOptions, value: seq<V>)
    requires !MaxViolated(options, |value|) && MinViolated(options, |value|)
    ensures CleanOutcome(child, options, value) == Failure(map[NonFieldErrors := [MinRequired(options.minLength.value)]])
  {
  }

  /**
   * With both bounds met and some item failing, the error's keys are exactly
   * the failing indices, each holding that item's error, and no list-level key:
   * every item is tried, also after an earlier one failed.
   */
  lemma CleanItemErrors<V, R, E>(child: ChildBlock<V, R, E>, options: ListOptions, value: seq<V>)
    requires !MaxViolated(options, |value|) && !MinViolated(options, |value|)
    requires exists i :: 0 <= i < |value| && child.clean(value[i]).Failure?
    ensures CleanOutcome(child, options, value).Failure?
    ensures NonFieldErrors !in CleanOutcome(child, options, value).error
    ensures forall i: nat :: ItemIndex(i) in CleanOutcome(child, options, value).error <==>
      i < |value| && child.clean(value[i]).Failure?
    ensures forall i :: 0 <= i < |value| && child.clean(value[i]).Failure? ==>
      CleanOutcome(child, options, value).error[ItemIndex(i)] == [ChildError(child.clean(value[i]).error)]
  {
    var i :| 0 <= i < |value| && child.clean(value[i]).Failure?;
    assert i in ItemErrors(child, value);
  }

  // -------------------------------------------------------------------------
  // value_from_datadict / value_omitted_from_data

  /** The Python faults of decoding: KeyError for a missing field, ValueError from `int()`. */
  datatype DecodeError = MissingField(key: string) | NotAnInteger(key: string)

  /** `range(0, count)` has no elements when `count` is negative. */
  function SlotCount(count: int): (n: nat)
    ensures count >= 0 ==> n == count
    ensures count < 0 ==> n == 0
  {
    if count < 0 then 0 else count
  }

  /**
   * One slot of the loop in `value_from_datadict`: nothing when its deleted
   * field is non-empty, otherwise its parsed order and its child value.
   */
  function ReadSlot<V, R, E>(child: ChildBlock<V, R, E>, data: FormData, files: Files, prefix: string, i: nat)
    : Result<Option<(int, V)>, DecodeError>
  {
    var deletedKey := DeletedKey(prefix, i);
    if deletedKey !in data then Failure(MissingField(deletedKey))
    else if data[deletedKey] != "" then Success(None)
    else
      var orderKey := OrderKey(prefix, i);
      if orderKey !in data then Failure(MissingField(orderKey))
      else match ParseInt(data[orderKey])
        case None => Failure(NotAnInteger(orderKey))
        case Some(order) => Success(Some((order, child.valueFromDatadict(data, files, ChildPrefix(MemberPrefix(prefix, i))))))
  }

  /** The pairs of slots `0 .. n-1`, in slot order; the first fault stops the loop. */
  function ReadSlots<V, R, E>(child: ChildBlock<V, R, E>, data: FormData, files: Files, prefix: string, n: nat)
    : Result<seq<(int, V)>, DecodeError>
  {
    if n == 0 then Success([])
    else match ReadSlots(child, data, files, prefix, n - 1)
      case Failure(e) => Failure(e)
      case Success(pairs) =>
        match ReadSlot(child, data, files, prefix, n - 1)
        case Failure(e) => Failure(e)
        case Success(None) => Success(pairs)
        case Success(Some(pair)) => Success(pairs + [pair])
  }

  /** What `value_from_datadict` returns or raises. */
  function DecodeFormData<V, R, E>(child: ChildBlock<V, R, E>, data: FormData, files: Files, prefix: string)
    : Result<seq<V>, DecodeError>
  {
    var countKey := CountKey(prefix);
    if countKey !in data then Failure(MissingField(countKey))
    else match ParseInt(data[countKey])
      case None => Failure(NotAnInteger(countKey))
      case Some(count) =>
        match ReadSlots(child, data, files, prefix, SlotCount(count))
        case Failure(e) => Failure(e)
        case Success(pairs) => Success(Values(SortByOrder(pairs)))
  }

  /** `value_omitted_from_data`: only the presence of the count field matters. */
  function ValueOmittedFromData(data: FormData, prefix: string): (omitted: bool)
    ensures omitted <==> CountKey(prefix) !in data
  {
    CountKey(prefix) !in data
  }

  /** A slot the decoder can read: a deleted field, and an integer order field unless deleted. */
  predicate SlotWellFormed(data: FormData, prefix: string, i: nat) {
    && DeletedKey(prefix, i) in data
    && (data[DeletedKey(prefix, i)] == "" ==>
          OrderKey(prefix, i) in data && ParseInt(data[OrderKey(prefix, i)]).Some?)
  }

  /** Form data the decoder reads without a fault. */
  predicate WellFormed(data: FormData, prefix: string) {
    && CountKey(prefix) in data
    && ParseInt(data[CountKey(prefix)]).Some?
    && forall i: nat :: i < SlotCount(ParseInt(data[CountKey(prefix)]).value) ==> SlotWellFormed(data, prefix, i)
  }

  /** The number of slots the submitted count field says there are. */
  function SubmittedCount(data: FormData, prefix: string): nat
    requires CountKey(prefix) in data && ParseInt(data[CountKey(prefix)]).Some?
  {
    SlotCount(ParseInt(data[CountKey(prefix)]).value)
  }

  predicate Survives(data: FormData, prefix: string, i: nat) {
    DeletedKey(prefix, i) in data && data[DeletedKey(prefix, i)] == ""
  }

  predicate Deleted(data: FormData, prefix: string, i: nat) {
    DeletedKey(prefix, i) in data && data[DeletedKey(prefix, i)] != ""
  }

  /** The number of slots among `0 .. n-1` marked deleted. */
  function DeletedCount(data: FormData, prefix: string, n: nat): nat
  {
    if n == 0 then 0 else DeletedCount(data, prefix, n - 1) + (if Deleted(data, prefix, n - 1) then 1 else 0)
  }

  /** The surviving slots among `0 .. n-1`, in slot order. */
  function SurvivorIndices(data: FormData, prefix: string, n: nat): seq<nat>
  {
    if n == 0 then [] else SurvivorIndices(data, prefix, n - 1) + (if Survives(data, prefix, n - 1) then [n - 1] else [])
  }

  /**
   * The survivors are exactly the undeleted slots, each once and in slot
   * order, and when every slot has a deleted field they number `n` minus the
   * deleted ones.
   */
  lemma {:induction false} SurvivorIndicesSpec(data: FormData, prefix: string, n: nat)
    ensures forall k, l :: 0 <= k < l < |SurvivorIndices(data, prefix, n)| ==>
      SurvivorIndices(data, prefix, n)[k] < SurvivorIndices(data, prefix, n)[l]
    ensures forall i: nat :: i in SurvivorIndices(data, prefix, n) <==> i < n && Survives(data, prefix, i)
    ensures (forall i: nat :: i < n ==> DeletedKey(prefix, i) in data) ==>
      |SurvivorIndices(data, prefix, n)| == n - DeletedCount(data, prefix, n)
  {
    if n > 0 {
      SurvivorIndicesSpec(data, prefix, n - 1);
      var prev := SurvivorIndices(data, prefix, n - 1);
      forall k | 0 <= k < |prev| ensures prev[k] < n - 1 {
        assert prev[k] in prev;
      }
    }
  }

  lemma {:induction false} ReadSlotsFailurePersists<V, R, E>(
    child: ChildBlock<V, R, E>, data: FormData, files: Files, prefix: string, i: nat, n: nat)
    requires i <= n && ReadSlots(child, data, files, prefix, i).Failure?
    ensures ReadSlots(child, data, files, prefix, n) == ReadSlots(child, data, files, prefix, i)
    decreases n
  {
    if i < n {
      ReadSlotsFailurePersists(child, data, files, prefix, i, n - 1);
    }
  }

  /** Reading slots `0 .. n-1` succeeds exactly when each of them is well formed. */
  lemma {:induction false} ReadSlotsSucceedsIff<V, R, E>(
    child: ChildBlock<V, R, E>, data: FormData, files: Files, prefix: string, n: nat)
    ensures ReadSlots(child, data, files, prefix, n).Success? <==>
      forall i: nat :: i < n ==> SlotWellFormed(data, prefix, i)
  {
    if n > 0 {
      ReadSlotsSucceedsIff(child, data, files, prefix, n - 1);
      assert ReadSlot(child, data, files, prefix, n - 1).Success? <==> SlotWellFormed(data, prefix, n - 1);
      if ReadSlots(child, data, files, prefix, n).Success? {
        forall i: nat | i < n ensures SlotWellFormed(data, prefix, i) {
        }
      }
    }
  }

  /** A fault while reading slots never names the count field. */
  lemma {:induction false} ReadSlotsFaultKey<V, R, E>(
    child: ChildBlock<V, R, E>, data: FormData, files: Files, prefix: string, n: nat)
    requires ReadSlots(child, data, files, prefix, n).Failure?
    ensures ReadSlots(child, data, files, prefix, n).error.key != CountKey(prefix)
  {
    if ReadSlots(child, data, files, prefix, n - 1).Failure? {
      ReadSlotsFaultKey(child, data, files, prefix, n - 1);
    } else {
      CountKeyIsNoSlotKey(prefix, n - 1);
    }
  }

  /**
   * The pairs read from slots `0 .. n-1` are, position by position, the
   * survivors' parsed order fields and the child values decoded at their
   * `-value` prefixes.
   */
  lemma {:induction false} ReadSlotsSurvivors<V, R, E>(
    child: ChildBlock<V, R, E>, data: FormData, files: Files, prefix: string, n: nat, pairs: seq<(int, V)>)
    requires ReadSlots(child, data, files, prefix, n) == Success(pairs)
    ensures |pairs| == |SurvivorIndices(data, prefix, n)|
    ensures forall k :: 0 <= k < |pairs| ==>
      var i := SurvivorIndices(data, prefix, n)[k];
      && OrderKey(prefix, i) in data
      && ParseInt(data[OrderKey(prefix, i)]).Some?
      && pairs[k] == (ParseInt(data[OrderKey(prefix, i)]).value,
                      child.valueFromDatadict(data, files, ChildPrefix(MemberPrefix(prefix, i))))
  {
    if n > 0 {
      var before := ReadSlots(child, data, files, prefix, n - 1).value;
      ReadSlotsSurvivors(child, data, files, prefix, n - 1, before);
      var idx, prev := SurvivorIndices(data, prefix, n), SurvivorIndices(data, prefix, n - 1);
      assert forall k :: 0 <= k < |prev| ==> idx[k] == prev[k];
      if Survives(data, prefix, n - 1) {
        assert idx[|prev|] == n - 1;
      }
    }
  }

  /** The pairs of well-formed form data, in slot order, before sorting. */
  ghost function SubmittedPairs<V, R, E>(child: ChildBlock<V, R, E>, data: FormData, files: Files, prefix: string)
    : (pairs: seq<(int, V)>)
    requires WellFormed(data, prefix)
    ensures ReadSlots(child, data, files, prefix, SubmittedCount(data, prefix)) == Success(pairs)
  {
    ReadSlotsSucceedsIff(child, data, files, prefix, SubmittedCount(data, prefix));
    ReadSlots(child, data, files, prefix, SubmittedCount(data, prefix)).value
  }

  /** Decoding succeeds exactly on well-formed form data. */
  lemma DecodeFormDataSucceedsIff<V, R, E>(child: ChildBlock<V, R, E>, data: FormData, files: Files, prefix: string)
    ensures DecodeFormData(child, data, files, prefix).Success? <==> WellFormed(data, prefix)
  {
    if CountKey(prefix) in data && ParseInt(data[CountKey(prefix)]).Some? {
      ReadSlotsSucceedsIff(child, data, files, prefix, SubmittedCount(data, prefix));
    }
  }

  /**
   * Decoding well-formed form data yields one value per undeleted slot,
   * sorted by order: the count minus the deleted slots, the values of a
   * permutation of the submitted pairs sorted by order; and when the orders
   * are distinct, the values of every such sorted permutation.
   */
  lemma DecodeFormDataSpec<V, R, E>(child: ChildBlock<V, R, E>, data: FormData, files: Files, prefix: string)
    requires WellFormed(data, prefix)
    ensures DecodeFormData(child, data, files, prefix).Success?
    ensures |DecodeFormData(child, data, files, prefix).value| ==
      SubmittedCount(data, prefix) - DeletedCount(data, prefix, SubmittedCount(data, prefix))
    ensures exists sorted :: && SortedByOrder(sorted)
                             && multiset(sorted) == multiset(SubmittedPairs(child, data, files, prefix))
                             && Values(sorted) == DecodeFormData(child, data, files, prefix).value
    ensures UniqueOrders(SubmittedPairs(child, data, files, prefix)) ==>
      forall sorted :: SortedByOrder(sorted) && multiset(sorted) == multiset(SubmittedPairs(child, data, files, prefix)) ==>
        Values(sorted) == DecodeFormData(child, data, files, prefix).value
  {
    var n := SubmittedCount(data, prefix);
    var pairs := SubmittedPairs(child, data, files, prefix);
    ReadSlotsSurvivors(child, data, files, prefix, n, pairs);
    SurvivorIndicesSpec(data, prefix, n);
    forall i: nat | i < n ensures DeletedKey(prefix, i) in data {
      assert SlotWellFormed(data, prefix, i);
    }
    assert DecodeFormData(child, data, files, prefix) == Success(Values(SortByOrder(pairs)));
    SortByOrderSpec(pairs);
    assert |SortByOrder(pairs)| == |multiset(SortByOrder(pairs))| == |multiset(pairs)| == |pairs|;
    if UniqueOrders(pairs) {
      forall sorted | SortedByOrder(sorted) && multiset(sorted) == multiset(pairs)
        ensures Values(sorted) == DecodeFormData(child, data, files, prefix).value
      {
        SortByOrderDetermined(pairs, sorted);
      }
    }
  }

  /**
   * The `(order, child value)` pairs of the undeleted slots among `0 .. n-1`,
   * in slot order: each slot's parsed order field and the child value decoded
   * at its `-value` prefix.
   */
  ghost function UndeletedSlotPairs<V, R, E>(child: ChildBlock<V, R, E>, data: FormData, files: Files, prefix: string, n: nat)
    : seq<(int, V)>
    requires forall i: nat :: i < n ==> SlotWellFormed(data, prefix, i)
  {
    if n == 0 then []
    else
      assert SlotWellFormed(data, prefix, n - 1);
      UndeletedSlotPairs(child, data, files, prefix, n - 1) +
      if Survives(data, prefix, n - 1) then
        [(ParseInt(data[OrderKey(prefix, n - 1)]).value,
          child.valueFromDatadict(data, files, ChildPrefix(MemberPrefix(prefix, n - 1))))]
      else []
  }

  lemma {:induction false} ReadSlotsUndeleted<V, R, E>(
    child: ChildBlock<V, R, E>, data: FormData, files: Files, prefix: string, n: nat)
    requires forall i: nat :: i < n ==> SlotWellFormed(data, prefix, i)
    ensures ReadSlots(child, data, files, prefix, n) == Success(UndeletedSlotPairs(child, data, files, prefix, n))
  {
    if n > 0 {
      ReadSlotsUndeleted(child, data, files, prefix, n - 1);
      assert SlotWellFormed(data, prefix, n - 1);
      if Survives(data, prefix, n - 1) {
        assert ReadSlot(child, data, files, prefix, n - 1) ==
          Success(Some((ParseInt(data[OrderKey(prefix, n - 1)]).value,
                        child.valueFromDatadict(data, files, ChildPrefix(MemberPrefix(prefix, n - 1))))));
      } else {
        assert ReadSlot(child, data, files, prefix, n - 1) == Success(None);
        var prev := UndeletedSlotPairs(child, data, files, prefix, n - 1);
        assert prev + [] == prev;
        assert ReadSlots(child, data, files, prefix, n) == Success(prev);
      }
    }
  }

  /**
   * Decoding well-formed form data, stated slot by slot: the result is the
   * values of the undeleted slots' `(order, child value)` pairs sorted by
   * order, one per undeleted slot below the count; when the orders are
   * distinct, every sorting of those pairs by order gives the same values.
   */
  lemma DecodeFormDataSlots<V, R, E>(child: ChildBlock<V, R, E>, data: FormData, files: Files, prefix: string)
    requires WellFormed(data, prefix)
    ensures DecodeFormData(child, data, files, prefix).Success?
    ensures |DecodeFormData(child, data, files, prefix).value| ==
      SubmittedCount(data, prefix) - DeletedCount(data, prefix, SubmittedCount(data, prefix))
    ensures exists sorted :: && SortedByOrder(sorted)
                             && multiset(sorted) == multiset(UndeletedSlotPairs(child, data, files, prefix, SubmittedCount(data, prefix)))
                             && Values(sorted) == DecodeFormData(child, data, files, prefix).value
    ensures UniqueOrders(UndeletedSlotPairs(child, data, files, prefix, SubmittedCount(data, prefix))) ==>
      forall sorted ::
        (SortedByOrder(sorted) &&
         multiset(sorted) == multiset(UndeletedSlotPairs(child, data, files, prefix, SubmittedCount(data, prefix)))) ==>
        Values(sorted) == DecodeFormData(child, data, files, prefix).value
  {
    ReadSlotsUndeleted(child, data, files, prefix, SubmittedCount(data, prefix));
    assert SubmittedPairs(child, data, files, prefix) == UndeletedSlotPairs(child, data, files, prefix, SubmittedCount(data, prefix));
    DecodeFormDataSpec(child, data, files, prefix);
  }

  /** The data counts as omitted exactly when decoding it faults on the missing count field. */
  lemma OmittedIffCountMissing<V, R, E>(child: ChildBlock<V, R, E>, data: FormData, files: Files, prefix: string)
    ensures ValueOmittedFromData(data, prefix) <==>
      DecodeFormData(child, data, files, prefix) == Failure(MissingField(CountKey(prefix)))
  {
    if CountKey(prefix) in data && ParseInt(data[CountKey(prefix)]).Some? {
      var n := SubmittedCount(data, prefix);
      if ReadSlots(child, data, files, prefix, n).Failure? {
        ReadSlotsFaultKey(child, data, files, prefix, n);
      }
    }
  }

  // -------------------------------------------------------------------------
  // to_python / get_prep_value / get_searchable_content

  /** `to_python`: the child's `to_python` on every raw item, in order. */
  function ToPython<V, R, E>(child: ChildBlock<V, R, E>, raw: seq<R>): (value: seq<V>)
    ensures |value| == |raw|
    ensures forall i :: 0 <= i < |raw| ==> value[i] == child.toPython(raw[i])
  {
    seq(|raw|, i requires 0 <= i < |raw| => child.toPython(raw[i]))
  }

  /** `get_prep_value`: the child's `get_prep_value` on every item, in order. */
  function GetPrepValue<V, R, E>(child: ChildBlock<V, R, E>, value: seq<V>): (raw: seq<R>)
    ensures |raw| == |value|
    ensures forall i :: 0 <= i < |value| ==> raw[i] == child.getPrepValue(value[i])
  {
    seq(|value|, i requires 0 <= i < |value| => child.getPrepValue(value[i]))
  }

  /** The list adds no distortion: where the child's round trip holds for each item, so does the list's. */
  lemma PrepValueRoundTrip<V, R, E>(child: ChildBlock<V, R, E>, value: seq<V>)
    requires forall i :: 0 <= i < |value| ==> child.toPython(child.getPrepValue(value[i])) == value[i]
    ensures ToPython(child, GetPrepValue(child, value)) == value
  {
  }

  /** The opposite round trip, raw lists through native lists and back. */
  lemma RawRoundTrip<V, R, E>(child: ChildBlock<V, R, E>, raw: seq<R>)
    requires forall i :: 0 <= i < |raw| ==> child.getPrepValue(child.toPython(raw[i])) == raw[i]
    ensures GetPrepValue(child, ToPython(child, raw)) == raw
  {
  }

  /** `get_searchable_content`: the items' own searchable content, concatenated in order. */
  function SearchableContent<V, R, E>(child: ChildBlock<V, R, E>, value: seq<V>): seq<string>
  {
    if value == [] then []
    else SearchableContent(child, value[..|value| - 1]) + child.getSearchableContent(value[|value| - 1])
  }

  /** The content of a concatenation is the concatenation of the contents. */
  lemma {:induction false} SearchableContentAppend<V, R, E>(child: ChildBlock<V, R, E>, a: seq<V>, b: seq<V>)
    ensures SearchableContent(child, a + b) == SearchableContent(child, a) + SearchableContent(child, b)
    decreases |b|
  {
    if b != [] {
      var init := b[..|b| - 1];
      assert (a + b)[..|a + b| - 1] == a + init;
      assert (a + b)[|a + b| - 1] == b[|b| - 1];
      SearchableContentAppend(child, a, init);
    } else {
      assert a + b == a;
    }
  }

  /**
   * Every item's content appears whole and in place: the items before it
   * contribute what comes first and the items after it what comes last.
   */
  lemma SearchableContentAt<V, R, E>(child: ChildBlock<V, R, E>, value: seq<V>, k: nat)
    requires k < |value|
    ensures SearchableContent(child, value) ==
      SearchableContent(child, value[..k]) + child.getSearchableContent(value[k]) + SearchableContent(child, value[k + 1..])
  {
    assert value == value[..k] + [value[k]] + value[k + 1..];
    SearchableContentAppend(child, value[..k] + [value[k]], value[k + 1..]);
    SearchableContentAppend(child, value[..k], [value[k]]);
    assert ([] + [value[k]])[..0] == [];
    assert SearchableContent(child, [value[k]]) == SearchableContent(child, []) + child.getSearchableContent(value[k]);
  }

  // -------------------------------------------------------------------------
  // render_form, without the HTML

  /** What a list member is rendered with: its prefix, its index, its value, where its child binds, and its errors. */
  datatype ListMember<V, E> = ListMember(prefix: string, index: nat, value: V, childPrefix: string, errors: Option<ErrorList<E>>)

  /** What the list template is rendered with. */
  datatype ListForm<V, E> = ListForm(prefix: string, members: seq<ListMember<V, E>>, blockErrors: Option<ErrorList<E>>)

  datatype RenderError = TypeError(message: string)

  /** `render_list_member`: the child is bound at the member prefix plus `-value`. */
  function RenderListMember<V, E>(value: V, prefix: string, index: nat, errors: Option<ErrorList<E>>): (m: ListMember<V, E>)
    ensures m.prefix == prefix && m.index == index && m.value == value && m.errors == errors
    ensures m.childPrefix == ChildPrefix(prefix)
  {
    ListMember(prefix, index, value, ChildPrefix(prefix), errors)
  }

  /**
   * `render_form(value, prefix, errors)`: `errors` is the list of validation
   * errors given to the form, each a `ListBlockValidationError` seen through
   * its `params`. More than one is a TypeError; otherwise member `i` renders at
   * `prefix-i` with `params.get(i)` and the list with `params.get(NON_FIELD_ERRORS)`.
   */
  function RenderForm<V, E>(value: seq<V>, prefix: string, errors: seq<Params<E>>): (r: Result<ListForm<V, E>, RenderError>)
    ensures r.Failure? <==> |errors| > 1
    ensures r.Success? ==> r.value.prefix == prefix && |r.value.members| == |value|
    ensures r.Success? ==> forall i :: 0 <= i < |value| ==>
      && r.value.members[i].prefix == MemberPrefix(prefix, i)
      && r.value.members[i].index == i
      && r.value.members[i].value == value[i]
      && r.value.members[i].childPrefix == ChildPrefix(MemberPrefix(prefix, i))
      && r.value.members[i].errors == (if errors == [] then None else Get(errors[0], ItemIndex(i)))
    ensures r.Success? ==> r.value.blockErrors == (if errors == [] then None else Get(errors[0], NonFieldErrors))
  {
    if |errors| > 1 then
      Failure(TypeError("ListBlock.render_form unexpectedly received multiple errors"))
    else
      var errorDict: Params<E> := if errors == [] then map[] else errors[0];
      Success(ListForm(
        prefix,
        seq(|value|, i requires 0 <= i < |value| =>
          RenderListMember(value[i], MemberPrefix(prefix, i), i, Get(errorDict, ItemIndex(i)))),
        Get(errorDict, NonFieldErrors)))
  }

  /** With no errors, every member and the list itself render without errors. */
  lemma RenderFormNoErrors<V, E>(value: seq<V>, prefix: string)
    ensures RenderForm<V, E>(value, prefix, []).Success?
    ensures RenderForm<V, E>(value, prefix, []).value.blockErrors == None
    ensures forall i :: 0 <= i < |value| ==> RenderForm<V, E>(value, prefix, []).value.members[i].errors == None
  {
  }

  /**
   * The error `clean` raises is taken apart again by `render_form`: each
   * failing item's error comes back at that item's index and nowhere else,
   * and the bound messages come back as the list-level errors.
   */
  lemma CleanErrorsRedistributed<V, R, E>(
    child: ChildBlock<V, R, E>, options: ListOptions, value: seq<V>, prefix: string, params: Params<E>)
    requires CleanOutcome(child, options, value) == Failure(params)
    ensures RenderForm(value, prefix, [params]).Success?
    ensures var form := RenderForm(value, prefix, [params]).value;
      && (forall i :: 0 <= i < |value| ==>
            form.members[i].errors ==
              if !MaxViolated(options, |value|) && !MinViolated(options, |value|) && child.clean(value[i]).Failure?
              then Some([ChildError(child.clean(value[i]).error)])
              else None)
      && form.blockErrors ==
           if MaxViolated(options, |value|) then Some([MaxReached(options.maxLength.value)])
           else if MinViolated(options, |value|) then Some([MinRequired(options.minLength.value)])
           else None
  {
  }

  // -------------------------------------------------------------------------
  // The block

  class ListBlock<V, R, E> {
    const childBlock: ChildBlock<V, R, E>
    const listOptions: ListOptions
    const defaultValue: seq<V>

    /** `ListBlock(child_block, max_length, min_length)`, with `meta.default` when the block class configures one. */
    constructor(childArg: ChildArg<V, R, E>, maxLength: Option<int>, minLength: Option<int>, metaDefault: Option<seq<V>>)
      ensures listOptions == ListOptions(maxLength, minLength)
      ensures childBlock == Instantiate(childArg)
      ensures defaultValue == DefaultValue(metaDefault, childBlock.getDefault)
    {
      listOptions := ListOptions(maxLength, minLength);
      var child := Instantiate(childArg);
      childBlock := child;
      defaultValue := DefaultValue(metaDefault, child.getDefault);
    }

    /** `clean`: validate every item, then the bounds, then report the item errors. */
    method Clean(value: seq<V>) returns (r: Result<seq<V>, Params<E>>)
      ensures r == CleanOutcome(childBlock, listOptions, value)
    {
      var result: seq<V> := [];
      var errors: map<nat, ErrorList<E>> := map[];
      for i := 0 to |value|
        invariant result == Successes(childBlock, value[..i])
        invariant errors == ItemErrors(childBlock, value[..i])
      {
        assert value[..i + 1][..i] == value[..i];
        ItemErrorsStep(childBlock, value, i);
        match childBlock.clean(value[i]) {
          case Success(cleaned) =>
            result := result + [cleaned];
          case Failure(e) =>
            errors := errors[i := [ChildError(e)]];
        }
      }
      assert value[..|value|] == value;

      var maxLength := listOptions.maxLength;
      if Truthy(maxLength) && maxLength.value < |value| {
        return Failure(ValidationErrorParams(map[], [MaxReached(maxLength.value)]));
      }
      var minLength := listOptions.minLength;
      if Truthy(minLength) && minLength.value > |value| {
        return Failure(ValidationErrorParams(map[], [MinRequired(minLength.value)]));
      }
      if errors != map[] {
        return Failure(ValidationErrorParams(errors, []));
      }
      return Success(result);
    }

    /** `value_from_datadict`: read the undeleted slots, then sort them by order. */
    method ValueFromDatadict(data: FormData, files: Files, prefix: string) returns (r: Result<seq<V>, DecodeError>)
      ensures r == DecodeFormData(childBlock, data, files, prefix)
    {
      var countKey := CountKey(prefix);
      if countKey !in data {
        return Failure(MissingField(countKey));
      }
      var count := ParseInt(data[countKey]);
      if count.None? {
        return Failure(NotAnInteger(countKey));
      }
      var n := SlotCount(count.value);
      var valuesWithIndexes: seq<(int, V)> := [];
      for i := 0 to n
        invariant ReadSlots(childBlock, data, files, prefix, i) == Success(valuesWithIndexes)
      {
        var deletedKey := DeletedKey(prefix, i);
        if deletedKey !in data {
          ReadSlotsFailurePersists(childBlock, data, files, prefix, i + 1, n);
          return Failure(MissingField(deletedKey));
        }
        if data[deletedKey] == "" {
          var orderKey := OrderKey(prefix, i);
          if orderKey !in data {
            ReadSlotsFailurePersists(childBlock, data, files, prefix, i + 1, n);
            return Failure(MissingField(orderKey));
          }
          var order := ParseInt(data[orderKey]);
          if order.None? {
            ReadSlotsFailurePersists(childBlock, data, files, prefix, i + 1, n);
            return Failure(NotAnInteger(orderKey));
          }
          var childValue := childBlock.valueFromDatadict(data, files, ChildPrefix(MemberPrefix(prefix, i)));
          valuesWithIndexes := valuesWithIndexes + [(order.value, childValue)];
        }
      }
      valuesWithIndexes := SortByOrder(valuesWithIndexes);
      return Success(Values(valuesWithIndexes));
    }

    /** `get_searchable_content`: extend the content with each item's own, in order. */
    method GetSearchableContent(value: seq<V>) returns (content: seq<string>)
      ensures content == SearchableContent(childBlock, value)
    {
      content := [];
      for i := 0 to |value|
        invariant content == SearchableContent(childBlock, value[..i])
      {
        assert value[..i + 1][..i] == value[..i];
        content := content + childBlock.getSearchableContent(value[i]);
      }
      assert value[..|value|] == value;
    }
  }
}
