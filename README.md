# ListBlock, modelled in Dafny

Wagtail's `ListBlock` is a StreamField block whose value is an ordered list
of values of one child block. This project models what the block itself does
with that child:

- building its default;
- validating a list item by item and against optional length bounds;
- packing the errors into one `ListBlockValidationError`;
- decoding the flat form fields an editor submits back into a list;
- converting lists to and from their raw form;
- collecting searchable text;
- handing each list member its prefix and its errors when the form is redisplayed.

The child block is never modelled from the inside. `ChildBlocks.ChildBlock<V, R, E>`
is a value holding one function for each capability the list block calls:
`get_default`, `to_python`, `get_prep_value`, `clean` (which may fail with an
error of type `E`), `value_from_datadict` and `get_searchable_content`.
Every property below holds for every child block.

Layout:

- `wrappers.dfy`: `Option`, `Result`, and `Get`, which is Python's `dict.get`.
- `decimal.dfy`: `"%d" % n` for slot indices and `int(s)` for the count and order fields, with the round trip between them.
- `child_block.dfy`: the child block's capabilities, and turning a block class into an instance.
- `list_errors.dfy`: the `params` carried by `ListBlockValidationError`. Item indices and `NON_FIELD_ERRORS` are its keys.
- `order_sort.dfy`: the sort of `(order, value)` pairs.
- `list_block.dfy`: the `ListBlock` class, the specification functions its methods are proved against, and the lemmas.
- `examples_text_child.dfy`: worked instances over a text child.

The class `ListBlocks.ListBlock` holds the configuration, which is set once in its
constructor: `list_options`, `child_block` and `meta.default`. The three
operations that loop are its methods: `clean`, `value_from_datadict` and
`get_searchable_content`. Each method is proved equal to a specification
function (`CleanOutcome`, `DecodeFormData`, `SearchableContent`), and the
lemmas state the properties of those functions. Errors are data:

- `clean` returns `Success(list)` or `Failure(params)`.
- Decoding returns `MissingField(key)` where Python raises `KeyError`, and `NotAnInteger(key)` where `int()` raises `ValueError`.
- `render_form` returns `TypeError` when given more than one error.

Python truthiness is written out. A length bound is `Option<int>`, and only `None` and `0` mean "no bound", so a negative bound is checked, as in Python. A deleted field counts as set when its string is non-empty.

Two details of the code differ from an idealised collect-all validator and a by-position sort. The model follows the code:

- `clean` checks the maximum bound first and raises at once. It then checks the minimum bound the same way. Either bound error discards the per-item errors already gathered, so the two bound messages are never reported together.
- `value_from_datadict` sorts `(order, value)` tuples, so slots with equal orders are put in order by comparing their child values, not by slot position. See `DecodeFormDataSpec` under "Left out".

## Model

| member | source | states |
|---|---|---|
| `ListErrors.ValidationErrorParams` | wagtail/wagtailcore/blocks/list_block.py:20-28 | every per-item error list sits under its index; the list-level errors sit under NON_FIELD_ERRORS, which is present exactly when there are some |
| `ChildBlocks.Instantiate` | wagtail/wagtailcore/blocks/list_block.py:40-44 | a block class is instantiated with no arguments; an instance is used unchanged |
| `ListBlocks.DefaultValue` | wagtail/wagtailcore/blocks/list_block.py:46-48 | with no configured default, the default is a one-item list holding the child's default; otherwise it is the configured one |
| `ListBlocks.ListBlock.constructor` | wagtail/wagtailcore/blocks/list_block.py:33-48 | the block keeps the given bounds, the instantiated child and the synthesized default |
| `ListBlocks.ListBlock.Clean` | wagtail/wagtailcore/blocks/list_block.py:130-154 | the loop over every item, then the bound checks, then the item-error check, give exactly `CleanOutcome` |
| `ListBlocks.CleanSucceedsIff` | wagtail/wagtailcore/blocks/list_block.py:130-154 | `clean` succeeds if and only if neither bound is violated and every item's child clean succeeds |
| `ListBlocks.CleanSuccessValues` | wagtail/wagtailcore/blocks/list_block.py:131-154 | a successful result has the input's length, and item `i` is the child's cleaned item `i` |
| `ListBlocks.CleanMaxReached` | wagtail/wagtailcore/blocks/list_block.py:139-142 | a truthy maximum below the length fails with params holding only NON_FIELD_ERRORS, `[MaxReached(max)]`, whatever the items and the minimum |
| `ListBlocks.CleanMinRequired` | wagtail/wagtailcore/blocks/list_block.py:144-147 | when the maximum holds, a truthy minimum above the length fails with params holding only NON_FIELD_ERRORS, `[MinRequired(min)]` |
| `ListBlocks.CleanItemErrors` | wagtail/wagtailcore/blocks/list_block.py:133-152 | when both bounds hold and some item fails, the params keys are exactly the failing indices, each holding that item's error, with no NON_FIELD_ERRORS |
| `ListBlocks.ValueOmittedFromData` | wagtail/wagtailcore/blocks/list_block.py:127-128 | the data is omitted exactly when the `prefix-count` field is absent; no other field matters |
| `ListBlocks.OmittedIffCountMissing` | wagtail/wagtailcore/blocks/list_block.py:111-128 | omitted data is exactly the data whose decoding faults on the missing count field; no slot field is ever the count field |
| `ListBlocks.ListBlock.ValueFromDatadict` | wagtail/wagtailcore/blocks/list_block.py:111-125 | reading the count, the slot loop with its skips and faults, the sort and the projection give exactly `DecodeFormData` |
| `ListBlocks.DecodeFormDataSucceedsIff` | wagtail/wagtailcore/blocks/list_block.py:111-122 | decoding succeeds if and only if the count parses, and each slot has a deleted field and, unless deleted, an order field that parses |
| `ListBlocks.ReadSlotsSucceedsIff` | wagtail/wagtailcore/blocks/list_block.py:114-122 | the slot loop runs to the end if and only if every slot it visits is well formed |
| `ListBlocks.ReadSlotsSurvivors` | wagtail/wagtailcore/blocks/list_block.py:114-122 | the collected pairs are, in slot order, one per undeleted slot: its parsed order, and the child value decoded at `prefix-i-value` |
| `ListBlocks.SurvivorIndicesSpec` | wagtail/wagtailcore/blocks/list_block.py:114-116 | the surviving slots are exactly the undeleted ones below the count, each once and increasing; when every slot has a deleted field, they number the count minus the deleted slots |
| `ListBlocks.ReadSlotsUndeleted` | wagtail/wagtailcore/blocks/list_block.py:114-122 | when every slot is well formed, the slot loop collects exactly the undeleted slots' parsed orders and child values, in slot order |
| `ListBlocks.DecodeFormDataSlots` | wagtail/wagtailcore/blocks/list_block.py:111-125 | on well-formed data the result has one item per undeleted slot below the count and is the values of the undeleted slots' `(order, child value)` pairs sorted by order; with distinct orders every such sorting gives the same values |
| `ListBlocks.DecodeFormDataSpec` | wagtail/wagtailcore/blocks/list_block.py:111-125 | on well-formed data the result has count minus deleted items and is the values of a permutation of the pairs sorted by order; with distinct orders it equals the values of every such sorted permutation |
| `OrderSort.SortByOrderSpec` | wagtail/wagtailcore/blocks/list_block.py:124 | the sort returns a permutation of its input, in non-decreasing order |
| `OrderSort.SortedPermutationsEqual` | wagtail/wagtailcore/blocks/list_block.py:124 | two sorted permutations of each other with distinct orders are equal |
| `OrderSort.SortByOrderDetermined` | wagtail/wagtailcore/blocks/list_block.py:124 | with distinct orders, the model's sort agrees with any sort by order, so it agrees with Python's tuple sort |
| `Decimal.ParseNatToDecimal` | wagtail/wagtailcore/blocks/list_block.py:112-119 | `int` of an index written with `%d` gives the index back |
| `Decimal.NatToDecimalInjective` | wagtail/wagtailcore/blocks/list_block.py:99 | distinct indices are written as distinct strings |
| `ListBlocks.MemberPrefixInjective` | wagtail/wagtailcore/blocks/list_block.py:99 | distinct members get distinct `prefix-i` prefixes |
| `ListBlocks.SlotFieldsInjective` | wagtail/wagtailcore/blocks/list_block.py:115-120 | distinct slots have distinct `-deleted` fields, distinct `-order` fields and distinct `-value` child prefixes, so their form fields never clash |
| `ListBlocks.CountKeyIsNoSlotKey` | wagtail/wagtailcore/blocks/list_block.py:112-119 | `prefix-count` is never a slot's `-deleted` or `-order` field |
| `ListBlocks.ToPython` | wagtail/wagtailcore/blocks/list_block.py:156-161 | the result has the raw list's length, and item `i` is the child's `to_python` of raw item `i` |
| `ListBlocks.GetPrepValue` | wagtail/wagtailcore/blocks/list_block.py:163-168 | the result has the list's length, and item `i` is the child's `get_prep_value` of item `i` |
| `ListBlocks.PrepValueRoundTrip` | wagtail/wagtailcore/blocks/list_block.py:156-168 | `to_python(get_prep_value(v)) == v` whenever the child's own round trip holds for each item |
| `ListBlocks.RawRoundTrip` | wagtail/wagtailcore/blocks/list_block.py:156-168 | `get_prep_value(to_python(raw)) == raw` whenever the child's round trip holds for each raw item |
| `ListBlocks.ListBlock.GetSearchableContent` | wagtail/wagtailcore/blocks/list_block.py:180-186 | extending the content item by item gives exactly `SearchableContent` |
| `ListBlocks.SearchableContentAppend` | wagtail/wagtailcore/blocks/list_block.py:180-186 | the content of a concatenation of lists is the concatenation of their contents |
| `ListBlocks.SearchableContentAt` | wagtail/wagtailcore/blocks/list_block.py:180-186 | each item's content appears whole, after the content of the items before it and before the content of the items after it |
| `ListBlocks.RenderListMember` | wagtail/wagtailcore/blocks/list_block.py:57-67 | a member renders with the given prefix, index and value, binds its child at `prefix-value`, and passes the given errors to it |
| `ListBlocks.RenderForm` | wagtail/wagtailcore/blocks/list_block.py:89-108 | more than one error is a TypeError; otherwise member `i` has prefix `prefix-i`, index `i`, item `i`, child prefix `prefix-i-value` and `params.get(i)`, and the list gets `params.get(NON_FIELD_ERRORS)` |
| `ListBlocks.RenderFormNoErrors` | wagtail/wagtailcore/blocks/list_block.py:89-108 | with no errors, every member and the list render without errors |
| `ListBlocks.CleanErrorsRedistributed` | wagtail/wagtailcore/blocks/list_block.py:92-108 | the error `clean` raises, given back to `render_form`, returns each failing item's error at that item only, and the bound message as the list-level error |
| `ListBlockExamples.DecodeReordersAndDropsDeleted` | wagtail/wagtailcore/blocks/list_block.py:111-125 | slots with orders 2, 0 and 1, where the third is deleted, decode to `[B, A]` |
| `ListBlockExamples.CleanReportsEveryBadItem` | wagtail/wagtailcore/blocks/list_block.py:130-154 | `clean(["", "x", ""])` over a required text child fails with errors at indices 0 and 2 exactly |

## Left out

- DecodeFormDataSpec: pins the result down only when the surviving orders are distinct. For equal orders, Python's tuple sort then compares the child values, and that comparison is unspecified. The model sorts stably by order. For every input it proves only that the result is sorted by order and a permutation of the surviving pairs.
- DecodeFormDataSlots: is weaker in the same way as DecodeFormDataSpec, for the same reason.
- `int()` is modelled as an optional sign followed by ASCII decimal digits. The surrounding whitespace, the non-ASCII digits and (from Python 3.6) the underscores between digits that Python's `int` also accepts are not modelled.
- HTML and template rendering are not modelled: `render_to_string`, `format_html`, `format_html_join`, the list and list-member templates, `render_basic`, `html_declarations` and `escape_script`. They are foreign template and escaping calls. The model keeps only what each member and the list are rendered with.
- The `help_text` passed to the list template is not modelled. It comes from the unmodelled `meta` machinery.
- `media` and `js_initializer` are not modelled. They build static asset paths and a script string through `js_dict`, which is not part of this model. The constructor's `dependencies` and `child_js_initializer` fields serve these and are left out too.
- `check` is not modelled. It depends on Django's checks framework and on the base `Block.check`, which is not part of this model.
- The base `Block` and its `meta` machinery are not modelled. The constructor's `meta.default` is taken as an optional argument.
- Translated message text is not modelled: the bound errors are the tags `MaxReached(n)` and `MinRequired(n)` rather than `ugettext` strings.
- The child block's own faults are not modelled. Its `value_from_datadict` is taken to be total, and its `clean` fails only through the `E` it returns.
- `RenderForm` receives each error as the `params` of a `ListBlockValidationError`. Passing some other kind of `ValidationError`, whose `params` would not be a mapping, is not modelled.
- Uploaded files are passed through to the child unchanged, and the list block never reads them. `value_omitted_from_data` does not use them either, so `ValueOmittedFromData` has no `files` parameter.
- The Python sort works in place on `values_with_indexes`. The model gives the sorted list a new value, because the sort is a library call and not part of the block's own code.
- `DECONSTRUCT_ALIASES` is migration-serialisation metadata and is not modelled.
