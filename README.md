# list2csv in Dafny

A model of the two CSV writers of `list2csv`, and proofs about them. Each
writer turns a sequence of items into CSV rows, one column per declared field.

- The newer writer (`src/list2csv.py`) has four kinds of column:
  - plain columns;
  - counters;
  - multi columns, which read one element of a shared tuple;
  - aggregators, which apply a function to the columns registered under an
    aggregate id.

  Each field memoises its last row number and value, so a field that several
  aggregators or multi columns depend on is evaluated once per row.
- The older writer (`src/list2csv/list2csv.py`) is a flat list of fields. Each
  field has a name, a function of the item and a data format.

Modules:

| module | file | contents |
|---|---|---|
| `Host` | `host.dfy` | Values, items and errors. Attribute lookup (`operator.attrgetter`), `tuple(...)`, tuple indexing. `normalise_evaluator`. |
| `Fields` | `fields.dfy` | `_Field` and its four kinds as the class `Field`. The aggregation list as the class `FieldList`. The memoised evaluation (`Field.Eval`, `Field.Compute`, `EvalAll`). `Denote`: the reference semantics of a field on an acyclic aggregation graph. |
| `List2Csv` | `list2csv.dfy` | The newer `Writer` as a class, with `_fields`, `_to_aggregate` and `_row_count` as fields. The functions `RowOf` and `Table` that specify `write_row` and `write_all`, and the lemmas about them. |
| `List2CsvLegacy` | `list2csv_legacy.dfy` | The older `Writer` and `_Field`. The functions `Row` and `Table` that specify `write` and `write_all`, and the lemmas about them. |

### How the memo is specified

Each `Field` carries a ghost log `computed` of every row number for which
`_eval` ran. `Field.Eval` is a recursive method. It terminates because every
nested call has one more field whose memo is for the current row. This holds
even when aggregators aggregate themselves or each other, since a field is
marked for the row before its `_eval` runs.

The writer's invariant keeps each log strictly increasing and no later than
`_row_count`. From that, `EvaluatedAtMostOnce` shows that `_eval` runs at most
once per field and row. The invariant also keeps every counter's memo equal
to `start + row * step` for its memoised row (`CounterMemos`). Together with a
counter's `_eval`, which cannot raise and reads no other field, this gives
every counter column's value with no condition on the graph or on stale memos.

The row contents are specified on a ghost snapshot `Picture(...)` of the fields
and aggregation lists, ranked by a caller-supplied `rank`. When the rank shows
the aggregation graph is acyclic, and no memo is already for the row being
written (`Fresh`), `write_row` writes `RowOf`. `RowOf` gives every column's
reference value `Denote`, formatted, in registry order.

### Behaviour worth knowing

The docstrings of `src/list2csv.py` agree with the code on each of these points
except where a bullet says otherwise, and the model follows the code:

- **Aggregation is by id.** An aggregator receives the list
  `_to_aggregate[aggregate_id]` itself (`src/list2csv.py:54-56, 62-64`). It
  therefore aggregates every field registered under that id, in registration
  order, including fields registered after the aggregator.
- **Counters start at `start` inclusive, default 1.** A counter's value is
  `start + row_number * step`, with rows numbered from 0
  (`src/list2csv.py:71, 78, 200-201`). So the first row holds `start`. The
  row number is the writer's `_row_count` (`src/list2csv.py:128, 201`), so,
  unlike what the docstring says, a counter added after `k` rows were written
  first writes `start + k * step`. `WriteRow` states this through
  `CounterRow` at the row number `old(rowCount)`.
- **`write_all` is repeated `write_row`** (`src/list2csv.py:136-140`).
- **A counter does not advance on a failed row.** A row that raises does not
  increment `_row_count` (`src/list2csv.py:128-132`).
- **Multi columns do not check the tuple length.** A multi column only indexes
  the tuple. A longer tuple is silently truncated to `num_items` columns. A
  shorter one raises `IndexError` when the row is written, not when the column
  is declared.

## Model

| member | source | states |
|---|---|---|
| Host.GetAttr | src/list2csv.py:167-171 | `attrgetter(name)(item)` succeeds exactly when the item has the attribute, with its value. Otherwise it fails with `AttributeError(name)`. |
| Host.Normalise | src/list2csv.py:167-171 | An attribute name becomes a getter that behaves as `GetAttr` on every item. A callable is kept as is and never fails. |
| Host.ToTuple | src/list2csv.py:104 | `tuple(v)` succeeds exactly for tuples/lists and strings. A tuple is kept. A string becomes its characters, one per element. Anything else is a `TypeError`. |
| Host.Tupled | src/list2csv.py:103-104 | The hidden sequence field of `add_multi` applies `tuple` to the evaluator's value. It passes the evaluator's error through unchanged. |
| Host.Index | src/list2csv.py:210-212 | `seq[idx]` succeeds exactly when `idx` is within the tuple, with that element. It is an `IndexError(idx)` on a short tuple and a `TypeError` on a non-tuple. |
| Fields.Field.constructor | src/list2csv.py:147-152 | A new field has no memo: `last_row == -1`, `last_value` is None, and `_eval` has never run. |
| Fields.Field.Eval | src/list2csv.py:154-158 | Afterwards the memo is for `row`. A repeated call for the memoised row returns the memo and changes no field. Otherwise `_eval` runs exactly once, and the memo value is updated only on success. Every other field is untouched or evaluated once for `row`. A counter's memo stays `start + row_number * step` for its row. On an acyclic graph whose memos are sound, the result is the reference value `Denote`. |
| Fields.Field.Compute | src/list2csv.py:174-212 | `_eval` of each kind: simple, aggregator, counter, multi. A counter always succeeds with `start + row * step` and changes no field. Other fields are evaluated at most once for `row`, and counters' memos stay right. On a sound acyclic graph the result is `Denote`. |
| Fields.EvalAll | src/list2csv.py:189-191 | The aggregator's generator yields one value per listed field, in list order, with the first error propagating. On a sound acyclic graph these are the fields' reference values. |
| Fields.DenoteAllValues | src/list2csv.py:190 | Aggregated values succeed exactly when every listed field does. They then hold one value per field, the `k`-th being field `k`'s value. |
| Fields.AggregatorValue | src/list2csv.py:189-191 | An aggregator succeeds exactly when all its listed fields do. Its value is then its function applied to their values, in list order. |
| Fields.MultiValue | src/list2csv.py:210-212 | A multi column fails with its sequence field's error. It yields element `idx` of the tuple when there is one, and `IndexError(idx)` when the tuple is too short. |
| List2Csv.MemoStep | src/list2csv.py:154-158 | Evaluating a field for a row after its memoised row keeps its log strictly increasing and ending at the memoised row. |
| List2Csv.AtMostOnce | src/list2csv.py:154-158 | A strictly increasing log contains each row number at most once. A row below its first entry does not occur at all. |
| List2Csv.Headers | src/list2csv.py:111-118 | The header row has one entry per column: the `k`-th column's header, in registry order. |
| List2Csv.RowValues | src/list2csv.py:120-132 | A row succeeds exactly when every column's value does. It then has one entry per column, in registry order, the `k`-th being column `k`'s value formatted with its data format. |
| List2Csv.RowFailsAt | src/list2csv.py:126-131 | A row fails with the error of its first failing column. |
| List2Csv.ShortMultiFails | src/list2csv.py:105-109 | A multi column whose tuple is too short for its index makes the row fail with `IndexError(idx)` at write time, provided no earlier column failed. |
| List2Csv.TableRows | src/list2csv.py:134-140 | `write_all` is repeated `write_row`. It writes no more rows than items, and row `k` is the row of item `k` at row number `n + k`. |
| List2Csv.TableOutcome | src/list2csv.py:134-140 | `write_all` passes exactly when every item was written. Otherwise it fails with the error of the first item whose row failed. |
| List2Csv.CounterColumn | src/list2csv.py:194-201 | In every row `k` of the reference table `Table`, a counter column holds `start + (n + k) * step`, formatted. |
| List2Csv.EvalRow | src/list2csv.py:126-130 | The `write_row` loop gives one value per column. Every field is evaluated at most once for the row. A column whose memo is already for the row writes its memo value. On success every column is its field's memo for the row, formatted, and counters' memos stay right. On failure the field that raised stays marked for the row. On a sound acyclic graph the result is `RowOf`. |
| List2Csv.Writer.constructor | src/list2csv.py:18-22 | A new writer has no fields, no aggregation lists, row count 0 and no rows written. Its set of fields and its set of lists are empty. |
| List2Csv.Writer.Lookup | src/list2csv.py:21 | `_to_aggregate[id]` on a defaultdict returns the existing list. For a missing id it creates and registers an empty one. No list's contents change. |
| List2Csv.Writer.AppendTo | src/list2csv.py:144 | The field is appended to the list of `id`. Every other id's list is unchanged. |
| List2Csv.Writer.AddToAggregate | src/list2csv.py:142-144 | The field is appended to the list of every id in `ids`. The lists of all other ids are unchanged. |
| List2Csv.Writer.Register | src/list2csv.py:42-43 | The field is appended to the registry and to the lists of its aggregate ids, and nothing else. |
| List2Csv.Writer.AddColumn | src/list2csv.py:24-43 | Appends exactly one new simple column with the given header, format and normalised evaluator. Existing columns are untouched. The column is appended to exactly the lists of `aggregate_ids`. The new field joins the writer's fields. Every existing id keeps its list object, and the only new lists are fresh. |
| List2Csv.Writer.AddAggregator | src/list2csv.py:45-67 | Appends exactly one new aggregator column. Its list is the writer's own list for `aggregate_id`, shared rather than copied. The column is appended to exactly the lists of `aggregate_ids`. The new field joins the writer's fields. Every existing id keeps its list object, and the only new lists are fresh. |
| List2Csv.Writer.AddCounter | src/list2csv.py:69-82 | Appends exactly one new counter column, with the given `start` and `step` (defaults 1 and 1) and data format `{}`. The column is appended to exactly the lists of `aggregate_ids`. The new field joins the writer's fields. Every existing id keeps its list object, and the only new lists are fresh. |
| List2Csv.Writer.AddMultiItem | src/list2csv.py:106-109 | One multi column, reading element `idx` of the shared field, is appended to the registry and to the lists of `aggregate_ids`. It joins the writer's fields, and every existing id keeps its list object. |
| List2Csv.Writer.AddMultiColumns | src/list2csv.py:105-109 | The loop appends `max(num_items, 0)` columns. Column `k` is headed `header_template.format(k + 1)` and reads element `k` of the one shared field. The lists of `aggregate_ids` gain exactly these columns, in order. They are fresh and join the writer's fields. Every existing id keeps its list object, and the only new lists are fresh. |
| List2Csv.Writer.AddMulti | src/list2csv.py:84-109 | One hidden field computes `tuple(evaluator(item))` and is not a column. Then `max(num_items, 0)` new columns are appended after the existing ones. The `i`-th is headed `header_template.format(i)` and reads element `i - 1` of that field. Exactly the lists of `aggregate_ids` gain them. The writer's fields gain the hidden field and the new columns. Every existing id keeps its list object, and the only new lists are fresh. |
| List2Csv.Writer.WriteHeader | src/list2csv.py:111-118 | Writes exactly one row, the headers in registry order. Registry, lists and row count are unchanged. |
| List2Csv.Writer.EvaluatedAtMostOnce | src/list2csv.py:154-158 | In a valid writer, `_eval` has run at most once for each field and row. |
| List2Csv.Writer.AggregatesMembers | src/list2csv.py:62-67 | An aggregator for `id` aggregates every field registered under `id`, including those added after it, in registration order. It succeeds exactly when they all do, with its function applied to their values. |
| List2Csv.Writer.EvalFields | src/list2csv.py:126-130 | The loop of `write_row` on the writer's registry: one value per column, each field evaluated at most once for the row, registry and lists unchanged. A column memoised for the row writes its memo value. A failure leaves a memo for the row number. Every counter column holds `start + row_number * step`, formatted. On a sound acyclic graph the result is `RowOf`. |
| List2Csv.Writer.WriteRow | src/list2csv.py:120-132 | A success writes exactly one row, with one entry per column, and increments `_row_count`. A failure writes nothing, leaves the count, and leaves a memo for that row number. A column already memoised for the row writes its memo value. Each field's `_eval` runs at most once. Registry and aggregation lists are unchanged. Every counter column holds `start + row_number * step`, formatted, with no other condition: after a failed row too, and beside an aggregation cycle. On an acyclic graph with no stale memo, the row is `RowOf`: every column's value, formatted, in registry order. |
| List2Csv.Writer.WriteAll | src/list2csv.py:134-140 | Rows are appended and the row count grows by the number of rows written. It passes exactly when all items were written. Every row written has one entry per column, and in the `k`-th of them every counter column holds `start + (row_count + k) * step`, formatted, with no other condition. On an acyclic graph with no stale memo, the rows and outcome are those of `Table`, that is, of repeated `write_row`. |
| List2CsvLegacy.NewField | src/list2csv/list2csv.py:50-58 | `_Field` keeps name and data format. `__post_init__` turns an attribute name into a getter that behaves as `GetAttr`, and keeps a callable. |
| List2CsvLegacy.NameOrCallable | src/list2csv/list2csv.py:56-61 | A field given by an attribute name writes the same value as one given by a callable reading that attribute: the attribute's value, formatted. |
| List2CsvLegacy.MissingAttribute | src/list2csv/list2csv.py:56-61 | A field given by an attribute name the item lacks fails with `AttributeError` for that name. |
| List2CsvLegacy.Eval | src/list2csv/list2csv.py:60-61 | `_Field.eval` succeeds exactly when the field's function does, with the value formatted by the data format. Otherwise it fails with the function's error. |
| List2CsvLegacy.Row | src/list2csv/list2csv.py:39 | The list comprehension of `write` has one entry per field on success. A failure is the error of some field's function. |
| List2CsvLegacy.Names | src/list2csv/list2csv.py:33 | The header row has one entry per field: the `k`-th field's name. |
| List2CsvLegacy.RowEntries | src/list2csv/list2csv.py:39 | The row succeeds exactly when every field's function does. It then has one entry per field, the `k`-th being `format(function(item))` of field `k`. |
| List2CsvLegacy.RowFailsAt | src/list2csv/list2csv.py:39 | The row fails with the error of its first failing field. |
| List2CsvLegacy.RowsAgree | src/list2csv/list2csv.py:39 | Fields that write the same values position by position write the same row, for example name-based and callable-based fields. |
| List2CsvLegacy.TableRows | src/list2csv/list2csv.py:42-47 | `write_all` writes no more rows than items, and row `k` is the row of item `k`. |
| List2CsvLegacy.TableOutcome | src/list2csv/list2csv.py:42-47 | `write_all` passes exactly when every item was written. Otherwise it fails with the error of the first item whose row failed. |
| List2CsvLegacy.Writer.constructor | src/list2csv/list2csv.py:10-12 | A new writer has no fields and has written nothing. |
| List2CsvLegacy.Writer.AddField | src/list2csv/list2csv.py:14-26 | Appends exactly one field, built as `_Field` builds it. Nothing else changes. |
| List2CsvLegacy.Writer.WriteHeader | src/list2csv/list2csv.py:28-33 | Writes exactly one row, the field names in order. The fields are unchanged, so two calls write the same row. |
| List2CsvLegacy.Writer.Write | src/list2csv/list2csv.py:35-40 | The result is the row of the item. A success writes exactly that row, with one entry per field. A failure writes nothing. The fields are unchanged. |
| List2CsvLegacy.Writer.WriteAll | src/list2csv/list2csv.py:42-47 | The rows written and the outcome are those of `Table`: one `write` per item, in order, stopping at the first failure. |

## Left out

- The csv writer and `TextIO` are not modelled, nor quoting and escaping. Each writer's output is the sequence `sink` of rows handed to `writerow`.
- `str.format` is an arbitrary function `Formatter` from a template and a value to a string, held by each writer. Every property holds for every such function. Format errors, such as `'{:d}'.format('a')` (a `ValueError`) or `'{1}'.format(v)` (an `IndexError`), are not modelled. A template with no placeholder ignores the value, which a `Formatter` may do as well.
- `attrgetter` is modelled for single attribute names only. Dotted paths are not modelled.
- User callables (evaluators and aggregate functions) are total functions: they cannot raise. Errors come only from missing attributes, `tuple(...)` of a non-iterable, and indexing.
- `Fields.Field.Compute`: an aggregator's function receives the whole list of values, not a lazy generator. A function that stops consuming early would, in the source, skip evaluating the remaining fields. Here they are all evaluated.
- `add_aggregator` also passes its `aggregate_evaluator` through `normalise_evaluator`. An attribute name given as an aggregate function is not modelled, since it has no meaning for a generator.
- Items are a finite sequence. `write_all` over an infinite or lazy iterable is not modelled.
- `List2Csv.Writer.WriteRow`: the reference row holds only when the caller supplies a rank proving the aggregation graph acyclic and no memo is stale. A memo is stale after an earlier `write_row` for the same row number raised. `_row_count` then stays, but the fields evaluated before the error keep their memo. The field that raised is marked for the row as well, before its `_eval` ran. So the next `write_row` writes their old values for those columns: that field gives its older `last_value` (None on row 0) and does not raise again (`src/list2csv.py:155-157, 128-132`). This is modelled as written: `WriteRow` states that a failure leaves a memo for the row number and that a memoised column writes its memo value. A successful `write_row` leaves no stale memo.
- `List2Csv.Writer.WriteAll`: its rows are `Table` only under the same two conditions as `WriteRow`.
- Counter columns are exempt from those two conditions. A counter's `_eval` cannot raise and reads no other field, so `WriteRow` and `WriteAll` state its value unconditionally.
- Values are only None, integers, strings and tuples/lists. In the source `tuple()` also accepts dicts, sets, ranges and generators, and a string can be indexed. So `Host.ToTuple` and `Host.Index` raise `TypeError` on "anything else" only among the modelled values. Aggregate ids are strings here, but any hashable in the source. A counter's `start` and `step` are integers here, but may be floats in the source.
- With a cycle of aggregators, only termination and "at most once per row" are proved. The value then depends on the evaluation order, as in the source.
- Python typing, `__all__` and the generic parameters are not modelled, nor packaging.
