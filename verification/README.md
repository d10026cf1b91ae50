# Feloxi: verified model

Feloxi watches Celery: it ingests task and worker events, stores them, shows them on dashboards and raises
alerts. This Dafny project models the parts of it whose behaviour is hardest to see from the code, and proves
what they promise for every input, every run and every interleaving.

| part | files | what is modelled |
|---|---|---|
| Reading Python reprs | `Utf8`, `Decimal`, `PyRepr`, `PyReprCursor`, `PythonRepr`, `PyReprRoundTrip`, `PyReprRefusals`, `PyLiteral`, `PyReprSound`, `PyReprComplete`, `PythonLiteral`, `PythonReading`, `PyReprForms`, `CallValue` | the recursive-descent parser over bytes with its cursor, Python's own `repr` (section 2.4.1 of the Python Language Reference, UTF-8 as in section 3 of RFC 3629), the exact language the parser accepts as token trees, Python's reading of the same trees, and rebuilding the arguments of a call to retry |
| Retry chains | `TaskHistory`, `TaskHistoryMeaning`, `RetryChain`, `RetryChainProperties`, `RetryChainComplete`, `RetryChainLinear` | the merged view of a task's events with all its columns, the walk up and the walk down with a visited set, on any graph |
| Task queries | `TaskQuery`, `TaskQueryReading`, `TaskPages`, `TaskPagesComplete`, `TaskGlob` | the text builder and the binder of the `WHERE` clause, a reader that gives clause and values a meaning, the keyset pager, the compiler from globs to regular expressions |
| Alerts | `AlertState`, `AlertPass`, `AlertRuns`, `AlertFires`, `AlertCooldowns` | streaks and cooldowns, one pass over the rules, all runs of passes and restarts |
| Deliveries | `Deliveries`, `DeliveryRuns`, `DeliveryOrder`, `DeliveryLimits` | the sorted set of retry jobs, scheduling, draining, all interleavings of passes and drains |
| Ingestion | `Pipeline`, `PipelineRuns`, `PipelineBalance`, `PipelineFates`, `TaskNames`, `WorkerBatch` | counters, the bounded retry buffer and its replay, naming events, deduplicating workers |
| Workflow graphs | `Dag`, `DagBuilder`, `DagProperties`, `DagEdges` | the four phases that draw edges, and exactly which edges those are |
| Live dashboards | `LiveBatch`, `LiveBatchRuns`, `LiveSubscriptions` | subscriptions, the batch of task events, flushes and failing sends |
| Masking, series, groups, scores | `Redaction`, `RedactionProperties`, `Series`, `SeriesProperties`, `FailureGroups`, `FailureMerge`, `Anomaly` | masking passwords in text, bucketing, folding failure groups, the throughput z-score |

Code that updates state is a class or a method with loops, proved against a function of the old state; the laws are
lemmas about that function. Two reusable ideas run through the project: a run is a sequence of steps with
nondeterministic outcomes (clocks, send results, database answers are part of the step), and a text that the code
writes is read back by an independent reader that gives it a meaning.

## What the proofs found

Where the code and its comments disagree, the model follows the code; each entry names the lemma that shows it.

- The repr parser says that anything but the literals of JSON values is an error, never a guess. It accepts exactly
  the token trees of `PyReprComplete.AcceptsExactlyLiterals`. Of these Python rejects, or JSON has no place for,
  exactly those with a line break before an indented literal (`PyReprForms.IndentIsAccepted`), an integer with a
  leading zero (`PyReprForms.LeadingZeroIsAccepted`), a misplaced underscore (`PyReprForms.UnderscoresAreAccepted`), a
  plus sign among hexadecimal digits (`PyReprRefusals.SignedEscapeIsAccepted`), a raw line break or NUL in a string
  (`PyReprForms.RawLineBreakIsAccepted`), or a number as a key of a dictionary (`PyReprForms.NumberKeyIsAccepted`).
  Python reads another value for an integer beyond 64 bits (`PyReprRefusals.IntegersExactlyInRange`), `\0` before an
  octal digit (`PyReprForms.OctalIsMisread`), and one value in parentheses without a comma
  (`PyReprForms.ParenthesesMakeList`), unless a later entry of a dictionary replaces the one it stands in.
  `PyReprForms.AcceptedReadsAsPython` states both exactly; only where a dictionary both repeats a key and has an octal
  escape in a key can a form of the last kind cancel out (`PyReprForms.OctalLastAgrees`). Number keys become text, as
  in Python's `json` module, so the keys `1` and `'1'` become one entry; none is lost exactly if the texts differ
  (`PyReprRefusals.NoEntryIsLostExactly`).
- The walk down a retry chain merges only the events that name the parent. A child whose linking event has no task
  name is missed, although the walk up from that child finds the parent (`RetryChainProperties.UnnamedLinkIsMissed`).
  Every task's chain has exactly its descendants if and only if, wherever an event names a recorded parent, those
  events give the parent's name exactly if all events of the child together do
  (`RetryChainComplete.ChainsCompleteExactly`); other unnamed links do no harm
  (`RetryChainComplete.UnnamedElsewhereIsComplete`). The children query alone is right for every parent and name
  exactly if linking events carry the name (`RetryChainProperties.FindsAllExactlyIfLinksNamed`).
- The attempts of a linear chain all give the same tasks in the same order, but not the same rows: those behind the
  queried attempt are merged from their linking events only, so they can show an outdated state
  (`RetryChainLinear.LateStateIsMissed`) or lack the exception of an earlier event
  (`RetryChainLinear.EarlyExceptionIsMissed`). All attempts give one list of rows exactly if for every attempt but the
  first the linking events merge to the same value as all its events in every column
  (`RetryChainLinear.LinearChainsAgreeExactly`), as they do where every event names the parent
  (`RetryChainLinear.EveryEventLinks`).
- Following page cursors can miss rows of one millisecond (`TaskPages.TieIsLost`). Every run shows every row exactly if
  every multiple of the limit below the number of rows is the number of rows since some time, which the rows and the limit
  decide beforehand (`TaskPagesComplete.ShowsAllExactly`).
- A rule's fires are always its cooldown apart exactly if the cooldown is an hour or less, because the periodic pruning
  forgets the fire (`AlertCooldowns.SpacedExactlyWithinAnHour`, `AlertFires.FiresExactly`, `AlertCooldowns.FiresAfterAnHour`,
  `AlertState.CleanupIsInvisible`). A negative cooldown wraps around to one far longer than an hour.
- Three sends are the limit of a delivery exactly when the rule lists the channel at most once
  (`DeliveryLimits.AtMostThreeExactlyWithoutRepeats`).
- `requeue_retry_batches` says that requeued batches stay next in line; they go behind all others. The next pop takes
  some of them exactly if the buffer held fewer batches than a pop takes, and begins with them exactly if it was empty
  (`PipelineRuns.RequeuedGoLast`, `PipelineRuns.NewBatchOvertakes`). A full retry buffer cuts off batches without
  counting them, and an unreadable batch counts as one event; the counters are off by exactly those rows
  (`PipelineRuns.CountersAreOffBy`). They balance exactly as long as every buffered push had room and every unreadable
  batch had one row (`PipelineBalance.BalancedExactly`, `PipelineBalance.UnreadablePairIsMiscounted`).
- Masking passes over a `://` whose colon ends another authority (`RedactionProperties.HiddenTokenStays`,
  `RedactionProperties.ResultIsCleanExactly`), and a password comes out as stars exactly if it holds no slash, quote,
  comma, closing parenthesis or white space (`RedactionProperties.PasswordIsMaskedExactly`).
- A metric row at the end of the window is dropped exactly when the end falls on the edge of a bucket
  (`SeriesProperties.OnlyTheEdgeIsLost`).
- The samples of a failure group are not always newest first (`FailureMerge.SamplesOutOfOrder`,
  `FailureMerge.SamplesNewestFirstExactly`).

## Model

| member | source | states |
|---|---|---|
| `Utf8.DecodeEncode` | crates/api/src/broker_conn/pyrepr.rs:145-153 | decoding a copied UTF-8 slice gives back the character it encodes, and the first byte announces the number of bytes copied |
| `Utf8.EncodeDecode` | crates/api/src/broker_conn/pyrepr.rs:145-153 | every accepted slice is the one encoding of what it decodes to: no overlong forms, no surrogates |
| `Decimal.ParseShow` | crates/api/src/broker_conn/pyrepr.rs:194-196 | `parse::<i64>` undoes printing exactly on the 64-bit range and refuses every other integer |
| `PyRepr.Parse` | crates/api/src/broker_conn/pyrepr.rs:12-21 | an accepted text was read to its very end |
| `PyRepr.ParseValue` | crates/api/src/broker_conn/pyrepr.rs:58-81 | an accepted value moves the cursor forward and stays within the text |
| `PyRepr.ParseItems` | crates/api/src/broker_conn/pyrepr.rs:84-102 | accepted items end just behind the closing byte; every round moves forward, so the recursion ends |
| `PyRepr.ParseDict` | crates/api/src/broker_conn/pyrepr.rs:104-133 | an accepted dictionary ends just behind its closing brace; every round moves forward |
| `PyRepr.ParseString` | crates/api/src/broker_conn/pyrepr.rs:135-174 | an accepted string ends just behind the quote that opened it |
| `PyRepr.HexChar` | crates/api/src/broker_conn/pyrepr.rs:176-182 | an accepted escape takes exactly its digits and stays within the text |
| `PyReprCursor.ParseText` | crates/api/src/broker_conn/pyrepr.rs:12-21 | the parser object accepts exactly what `Parse` accepts, with the same value and the same error |
| `PyReprCursor.Parser.Value` | crates/api/src/broker_conn/pyrepr.rs:58-81 | the method moves the cursor to where `ParseValue` ends and returns its value or error |
| `PyReprCursor.Parser.Items` | crates/api/src/broker_conn/pyrepr.rs:84-102 | the loop over items refines `ParseItems` |
| `PyReprCursor.Parser.Dict` | crates/api/src/broker_conn/pyrepr.rs:104-133 | the loop over entries refines `ParseDict`, inserts included |
| `PyReprCursor.Parser.String` | crates/api/src/broker_conn/pyrepr.rs:135-174 | the loop over characters refines `ParseString` |
| `PyReprCursor.Parser.Escape` | crates/api/src/broker_conn/pyrepr.rs:154-172 | the escape match refines `ParseEscape`, unterminated and unsupported escapes included |
| `PyReprCursor.Parser.Raw` | crates/api/src/broker_conn/pyrepr.rs:145-153 | copying a UTF-8 sequence refines `ParseRaw` |
| `PyReprCursor.Parser.Hex` | crates/api/src/broker_conn/pyrepr.rs:176-182 | reading hexadecimal digits refines `HexChar` |
| `PyReprCursor.Parser.Numeral` | crates/api/src/broker_conn/pyrepr.rs:184-202 | taking the longest run of number bytes refines `ParseNumber` |
| `PyReprCursor.Parser.Keyword` | crates/api/src/broker_conn/pyrepr.rs:48-56 | a keyword is taken exactly if it stands at the cursor and no word goes on behind it |
| `PyReprRoundTrip.RoundTrip` | crates/api/src/broker_conn/pyrepr.rs:1-21 | parsing the repr of any None, boolean, 64-bit integer, finite float, string, list, tuple or dictionary of such values, its keys strings or numbers, gives exactly its JSON value and leaves nothing over |
| `PyReprRoundTrip.ValueParses` | crates/api/src/broker_conn/pyrepr.rs:58-133 | the same wherever the repr stands inside a longer text |
| `PyReprRoundTrip.CharParses` | crates/api/src/broker_conn/pyrepr.rs:135-174 | every character of a string literal, raw or under any of the escapes Python writes, is read back and is never taken for the closing quote |
| `PyReprRoundTrip.IntParses` | crates/api/src/broker_conn/pyrepr.rs:184-196 | a 64-bit integer is read as an integer with its value |
| `PyReprRoundTrip.FloatText` | crates/api/src/broker_conn/pyrepr.rs:194-201 | the text of a float is never read as an integer and never as truncated |
| `PyReprRefusals.TruncatedIsRefused` | crates/api/src/broker_conn/pyrepr.rs:184-193 | no text that ends in `...` is accepted |
| `PyReprRefusals.LastByte` | crates/api/src/broker_conn/pyrepr.rs:58-133 | an accepted value that ends in a dot is a number that does not end in three |
| `PyReprRefusals.IntegersExactlyInRange` | crates/api/src/broker_conn/pyrepr.rs:194-201 | an integer comes back as itself if and only if it fits 64 bits |
| `PyReprRefusals.EscapeDigits` | crates/api/src/broker_conn/pyrepr.rs:176-182 | the digits of an accepted escape are all hexadecimal if and only if the first is no plus sign |
| `PyReprRefusals.SignedEscapeIsAccepted` | crates/api/src/broker_conn/pyrepr.rs:176-182 | a text that Python rejects, accepted as U+000F |
| `PyReprRefusals.DictKeepsEntries` | crates/api/src/broker_conn/pyrepr.rs:104-133 | where keys, numbers written out as text, are distinct, the object has every entry under its key and nothing else |
| `PyReprRefusals.NoEntryIsLostExactly` | crates/api/src/broker_conn/pyrepr.rs:104-133 | the object read back has as many entries as the dictionary if and only if the texts of its keys are distinct |
| `PyReprRefusals.NumberKeyMeetsText` | crates/api/src/broker_conn/pyrepr.rs:112-116 | a dictionary with the keys `1` and `'1'` does not keep both |
| `PyReprRefusals.OtherKeyIsRefused` | crates/api/src/broker_conn/pyrepr.rs:112-116 | a dictionary whose first key is no string and no number is refused for its key, whatever follows |
| `PyReprSound.AcceptedIsLiteral` | crates/api/src/broker_conn/pyrepr.rs:12-202 | every accepted text is the text of a tree of tokens with blanks around it, and the result is the value of the tree |
| `PyReprComplete.LiteralIsAccepted` | crates/api/src/broker_conn/pyrepr.rs:12-202 | every tree that has a value is accepted with that value, with any blanks between its tokens |
| `PyReprComplete.AcceptsExactlyLiterals` | crates/api/src/broker_conn/pyrepr.rs:12-202 | a text is accepted with a value if and only if it spells a tree of that value: the exact language of the parser |
| `PyReprForms.AcceptedReadsAsPython` | crates/api/src/broker_conn/pyrepr.rs:1-21 | an accepted text is a tree of the parser's value between blanks; Python rejects it if and only if it is indented below a line break or has a rejected form, and reads the same value if and only if neither this nor a listed form that matters is there, unless a dictionary both repeats a key and has a listed string as a key |
| `PythonReading.ReadAsPythonExactly` | crates/api/src/broker_conn/pyrepr.rs:1-8 | the same for trees: exactly when Python has no value for one, exactly when both values are equal with repeated keys, and without repeated keys that every listed form makes a difference |
| `PythonReading.RejectedExactly` | crates/api/src/broker_conn/pyrepr.rs:1-8 | Python rejects an accepted tree, or JSON has no such value, if and only if a rejected form is somewhere in it |
| `PythonLiteral.NumeralExactly` | crates/api/src/broker_conn/pyrepr.rs:184-202 | an accepted numeral is read as Python reads it if and only if its underscores are well placed and it is no integer with a leading zero or beyond 64 bits |
| `PythonLiteral.TextExactly` | crates/api/src/broker_conn/pyrepr.rs:135-182 | an accepted string is read as Python reads it if and only if it has no raw line break, no NUL, no `\0` before an octal digit and no signed digits; with one of them Python rejects it or reads fewer characters |
| `PythonLiteral.EscapesExactly` | crates/api/src/broker_conn/pyrepr.rs:159-170 | the escapes of one letter are those of Python's own table and `\0`, with the same characters, and no others |
| `PyReprForms.NumeralIsAcceptedExactly` | crates/api/src/broker_conn/pyrepr.rs:184-202 | a text of number bytes is accepted if and only if it is a number to the library without its underscores and does not end in `...`, and with that number |
| `PyReprForms.LeadingZeroIsAccepted` | crates/api/src/broker_conn/pyrepr.rs:194-196 | `07` is accepted as 7 |
| `PyReprForms.UnderscoresAreAccepted` | crates/api/src/broker_conn/pyrepr.rs:184-196 | `1__` is accepted as 1 |
| `PyReprForms.OctalIsMisread` | crates/api/src/broker_conn/pyrepr.rs:154-172 | `'\01'`, U+0001 to Python, is accepted as U+0000 and `1` |
| `PyReprForms.RawLineBreakIsAccepted` | crates/api/src/broker_conn/pyrepr.rs:145-153 | a string over two lines is accepted |
| `PyReprForms.ParenthesesMakeList` | crates/api/src/broker_conn/pyrepr.rs:84-102 | `(1)` is accepted as a list |
| `PyReprForms.NumberKeyIsAccepted` | crates/api/src/broker_conn/pyrepr.rs:104-133 | `{1:2}` is accepted as an object with the key `1` |
| `PyReprForms.IndentIsAccepted` | crates/api/src/broker_conn/pyrepr.rs:12-21 | a line break, a blank and `1` are accepted as 1 |
| `PyReprForms.OctalLastAgrees` | crates/api/src/broker_conn/pyrepr.rs:104-133 | a dictionary that repeats a key and has an octal escape in its last key, which no later entry replaces, is read alike |
| `PyReprForms.BytesByCharacter` | crates/api/src/broker_conn/pyrepr.rs:32-56 | blanks, number bytes, first bytes of numbers and word bytes are the characters the code lists |
| `PyReprForms.WordsByCharacter` | crates/api/src/broker_conn/pyrepr.rs:58-75 | the keywords, quotes and brackets are those of Python |
| `CallValue.ReprIsRebuilt` | crates/api/src/routes/tasks.rs:185-236 | from the repr of a representable value the call is rebuilt exactly, or refused: as cut short exactly if it has 1020 bytes or more and `...` in it, otherwise exactly if it is no list or tuple of arguments or no dictionary of keyword arguments |
| `CallValue.JsonPassesUnchanged` | crates/api/src/routes/tasks.rs:219-235 | a JSON list passes as arguments and an object as keyword arguments, unchanged, and neither as the other |
| `CallValue.NothingGiven` | crates/api/src/routes/tasks.rs:201-211 | null and blank texts stand for no arguments: an empty list or an empty object |
| `CallValue.CutTextIsRefused` | crates/api/src/routes/tasks.rs:185-236 | a text that ends in three dots is refused, whatever its length |
| `CallValue.Trim` | crates/api/src/routes/tasks.rs:208-208 | trimming removes white space at the two ends and nothing else, and leaves none there |
| `TaskHistory.TaskLatest` | crates/db/src/clickhouse/task_events.rs:277-331 | the merged row exists if and only if the task has an event, and carries the task's id |
| `TaskHistoryMeaning.TaskLatestMeans` | crates/db/src/clickhouse/task_events.rs:277-331 | column by column and in terms of the events alone: name, parent and the eleven columns of the kind come from the newest event that does not leave them empty, the first of equally new ones, and are empty exactly if all do; state, type, id, runtime and time from the newest event; the largest number of retries |
| `TaskHistoryMeaning.ChildRowMeans` | crates/db/src/clickhouse/task_events.rs:277-387 | the same of a child's row, over its events that name one of the parents |
| `TaskHistoryMeaning.MergedUniquely` | crates/db/src/clickhouse/task_events.rs:277-299 | that description leaves one row |
| `TaskHistoryMeaning.BlankLeavesException` | crates/db/src/clickhouse/task_events.rs:290-290 | an exception stays in the row when a later event has a blank one |
| `TaskHistory.ChildRowsShape` | crates/db/src/clickhouse/task_events.rs:357-387 | children come once each, oldest event first, all with the given name |
| `TaskHistory.ChildIds` | crates/db/src/clickhouse/task_events.rs:357-387 | exactly those tasks are found whose events that name a parent, merged alone, give the name |
| `TaskHistory.ChildMerged` | crates/db/src/clickhouse/task_events.rs:357-387 | a child's row is merged from its events that name one of the parents, and from no other |
| `RetryChain.GetRetryChain` | crates/db/src/clickhouse/task_events.rs:392-456 | the two loops compute the chain: ancestors oldest first, the task, descendants |
| `RetryChain.WalkUp` | crates/db/src/clickhouse/task_events.rs:412-432 | the first loop leaves the root, the rows passed on the way and their ids as visited |
| `RetryChain.WalkDown` | crates/db/src/clickhouse/task_events.rs:439-453 | the second loop appends level after level of unvisited children |
| `RetryChain.TakeFresh` | crates/db/src/clickhouse/task_events.rs:446-447 | the filter that inserts while it tests keeps each unvisited task once |
| `RetryChainProperties.AnyHistory` | crates/db/src/clickhouse/task_events.rs:392-456 | on any graph, cycles and self-parents included: no task twice, one name throughout, the queried task present, at most 50 ancestors; empty exactly for an unknown task |
| `RetryChainProperties.AncestorsComplete` | crates/db/src/clickhouse/task_events.rs:412-432 | without cycles the rows before the task are its unbroken same-named parent path, to its top or 50 links up |
| `RetryChainProperties.DescendantsComplete` | crates/db/src/clickhouse/task_events.rs:439-453 | without cycles, with one parent a task and links that agree with tasks on the parents' names, the rows after the task are exactly its same-named descendants down to generation 50, once each, in level order, each row merged from the events that name its parent |
| `RetryChainComplete.ChainsCompleteExactly` | crates/db/src/clickhouse/task_events.rs:392-456 | without cycles and with one parent a task, the chain of every task has exactly its descendants if and only if events that name a recorded parent give its name exactly if all events of the child do |
| `RetryChainComplete.NamedLinksAgree` | crates/db/src/clickhouse/task_events.rs:357-387 | links that carry the name of their task satisfy that condition |
| `RetryChainComplete.UnnamedElsewhereIsComplete` | crates/db/src/clickhouse/task_events.rs:357-456 | a history with an unnamed link to a task of another name, all of whose chains are complete |
| `RetryChainLinear.LinearChain` | crates/db/src/clickhouse/task_events.rs:392-456 | on a linear chain of at most 51 attempts every attempt queried lists the same tasks from root to last; the rows up to the queried one are merged from all their events, the later ones from their linking events |
| `RetryChainLinear.SameRowExactly` | crates/db/src/clickhouse/task_events.rs:277-299 | the row by task id and the row by parent id of an attempt are equal if and only if newest event, largest number of retries, agent and every column merged by its newest non-empty value come out the same from its linking events as from all its events |
| `RetryChainLinear.LinearChainsAgreeExactly` | crates/db/src/clickhouse/task_events.rs:392-456 | all attempts of a linear chain give the same list of rows if and only if for every attempt but the first the linking events merge to the same value as all its events in every column |
| `RetryChainLinear.EveryEventLinks` | crates/db/src/clickhouse/task_events.rs:392-456 | they do if every event of every attempt but the first names its parent |
| `RetryChainLinear.LateStateIsMissed` | crates/db/src/clickhouse/task_events.rs:392-456 | a retry that finished without naming its parent again: its two attempts give different lists |
| `RetryChainLinear.EarlyExceptionIsMissed` | crates/db/src/clickhouse/task_events.rs:277-299 | a retry whose newest event names its parent and whose exception stands in an earlier event that does not: its two attempts give different lists |
| `RetryChainProperties.ChildrenExact` | crates/db/src/clickhouse/task_events.rs:357-387 | with named links the children query finds exactly the same-named tasks with such a parent |
| `RetryChainProperties.FindsAllExactlyIfLinksNamed` | crates/db/src/clickhouse/task_events.rs:357-387 | the children query is complete for every parent and name if and only if linking events carry the name |
| `RetryChainProperties.UnnamedLinkIsMissed` | crates/db/src/clickhouse/task_events.rs:357-456 | a history in which the child's chain has the parent and the parent's chain misses the child |
| `TaskGlob.GlobMeaning` | crates/db/src/clickhouse/aggregations.rs:199-200 | a name matches a glob if and only if its stars can be filled in to give the name |
| `TaskGlob.GlobToRegex` | crates/db/src/clickhouse/aggregations.rs:201-216 | the loop writes the compiled expression |
| `TaskGlob.CompiledReadsBack` | crates/db/src/clickhouse/aggregations.rs:201-216 | read as a regular expression, the text has one item for each character of the glob, literals escaped, and nothing else |
| `TaskGlob.CompiledMatchesGlob` | crates/db/src/clickhouse/aggregations.rs:199-216 | searching with the compiled text is matching the glob, for every glob and name |
| `TaskGlob.DotNeedsNewlineMode` | crates/db/src/clickhouse/aggregations.rs:199-216 | without the dot matching line breaks a star would not match one |
| `TaskGlob.ToTaskPredicate` | crates/db/src/clickhouse/aggregations.rs:221-230 | the predicate made of a pattern holds of exactly the names the pattern matches, every name for the empty pattern |
| `TaskGlob.PredicateIsGlob` | crates/db/src/clickhouse/aggregations.rs:218-230 | no filter, equality and expression are one relation: the empty pattern matches all, any other is a glob |
| `TaskPages.PageLimit` | crates/api/src/routes/tasks.rs:359-363 | 50 without a limit, else the limit from 1 to 200 that is nearest to the one asked for |
| `TaskPages.Paginate` | crates/api/src/routes/tasks.rs:365-376 | keeps the first rows up to the limit; there is more if and only if a row is cut off, and then the cursor reads back as the time of the last row kept |
| `TaskPages.CursorRoundTrip` | crates/api/src/routes/tasks.rs:123-126 | a cursor reads back as the milliseconds of its row |
| `TaskPages.PageFacts` | crates/api/src/routes/tasks.rs:99-128 | a page without more has all that is left; a page with more is full and nothing left out is newer |
| `TaskPages.NoRowTwice` | crates/api/src/routes/tasks.rs:99-128 | following cursors returns no row twice, newest first, whatever the order of ties |
| `TaskPages.RunsEnd` | crates/api/src/routes/tasks.rs:99-128 | every page with more uses up a page of rows, so following cursors ends |
| `TaskPages.CompleteUnlessTieSplit` | crates/db/src/clickhouse/task_events.rs:222-232 | a given finished run shows every row if and only if none of its pages ends between rows of one millisecond |
| `TaskPagesComplete.ShowsAllExactly` | crates/db/src/clickhouse/task_events.rs:222-232 | every finished run shows every row if and only if, for every multiple of the limit below the number of rows, exactly that many rows are as new as some time |
| `TaskPagesComplete.SomeRun` | crates/api/src/routes/tasks.rs:99-128 | from any cursor there is a run that ends |
| `TaskPages.DistinctTimesAreComplete` | crates/db/src/clickhouse/task_events.rs:222-232 | with distinct milliseconds the pages are exactly the rows, strictly newest first |
| `TaskPages.TieIsLost` | crates/db/src/clickhouse/task_events.rs:222-232 | two rows of one millisecond, one of them never shown |
| `TaskQuery.AppendTaskWhere` | crates/db/src/clickhouse/task_events.rs:105-152 | the builder appends the clause of the filters to whatever text there is |
| `TaskQuery.AppendStates` | crates/db/src/clickhouse/task_events.rs:123-132 | the loop over states writes one placeholder for each, with commas between |
| `TaskQuery.BindTaskFilters` | crates/db/src/clickhouse/task_events.rs:154-184 | the binder appends the values of the filters in its own order |
| `TaskQuery.ListQuery` | crates/db/src/clickhouse/task_events.rs:201-236 | the query and the values of a page: clause, cursor, order and limit |
| `TaskQueryReading.ListQueryMeans` | crates/db/src/clickhouse/task_events.rs:93-241 | for all filters, cursors and limits, placeholders and values pair up with nothing missing or left over, and the query selects exactly the tenant's task events that meet every active filter and are older than the cursor |
| `TaskQueryReading.CountQueryMeans` | crates/db/src/clickhouse/task_events.rs:186-199 | the count query selects the same rows without cursor and limit |
| `TaskQueryReading.ListReads` | crates/db/src/clickhouse/task_events.rs:123-132 | the list of placeholders reads as the states bound to it, in order |
| `AlertState.ResolveTracker.RecordFiring` | crates/alerting/src/recovery.rs:36-40 | a firing pass forgets the rule's streak and no other |
| `AlertState.ResolveTracker.RecordClear` | crates/alerting/src/recovery.rs:42-48 | a clear pass lengthens the rule's streak and says whether it has reached two |
| `AlertState.ResolveTracker.Forget` | crates/alerting/src/recovery.rs:50-53 | forgets the rule's streak and no other |
| `AlertState.AlertThrottle.RecordFired` | crates/alerting/src/throttle.rs:21-24 | remembers the time of the rule's fire |
| `AlertState.AlertThrottle.Cleanup` | crates/alerting/src/throttle.rs:26-29 | keeps exactly the fires younger than the limit |
| `AlertState.CleanupIsInvisible` | crates/alerting/src/throttle.rs:16-29 | pruning never changes a present or future answer about a cooldown if and only if the cooldown is within the limit of the pruning |
| `AlertPass.AlertLoop.constructor` | crates/alerting/src/recovery.rs:31-34 | a fresh process has empty trackers over the history in the database |
| `AlertPass.AlertLoop.RunPass` | crates/api/src/main.rs:385-657 | one pass over the enabled rules: retire, evaluate each, prune |
| `AlertPass.AlertLoop.RetireMissing` | crates/api/src/main.rs:407-417 | incidents of rules that are not enabled are closed and their streaks forgotten |
| `AlertPass.AlertLoop.RunRule` | crates/api/src/main.rs:437-653 | the four arms of the match on condition and open incident |
| `AlertRuns.StepMoves` | crates/api/src/main.rs:407-653 | a step moves each rule between idle and open with a streak by what the step observes of that rule alone |
| `AlertRuns.OneOpenIncident` | crates/api/src/main.rs:393-653 | in every run a rule has at most one open incident |
| `AlertRuns.OpeningsAndClosingsAlternate` | crates/api/src/main.rs:447-652 | in every run openings and closings of a rule's incidents strictly alternate |
| `AlertRuns.ClosesAfterTwoClears` | crates/api/src/main.rs:578-589 | an evaluation closes an enabled rule's open incident if and only if it is clear and the step before was a clear evaluation too |
| `AlertFires.FiresExactly` | crates/api/src/main.rs:437-657 | in every run of a process that starts with empty trackers an evaluation fires if and only if its condition holds, its rule had no open incident when the pass started, and each earlier fire of the rule in the log is a cooldown back or was an hour back at the end of the pass before; an incident opens if and only if a fire is recorded |
| `AlertFires.FiresOutOfCooldownExactly` | crates/alerting/src/throttle.rs:16-24 | for cooldowns up to an hour: if and only if no earlier fire of the rule is less than a cooldown back |
| `AlertFires.OpensExactly` | crates/api/src/main.rs:447-577 | in every run a rule without an open incident has one behind a step if and only if the step logs a recorded fire of it |
| `AlertRuns.FiresAreSpaced` | crates/api/src/main.rs:453-461 | in every run of a process two fires of a rule with a cooldown up to an hour are at least the cooldown apart, recorded or not |
| `AlertCooldowns.SpacedExactlyWithinAnHour` | crates/api/src/main.rs:453-657 | in all runs of a process the fires of a rule are its cooldown apart if and only if the cooldown is from 0 to 3600 seconds |
| `AlertCooldowns.FiresAfterAnHour` | crates/alerting/src/throttle.rs:16-29 | whatever the cooldown, a rule that resolved and was pruned fires again after an hour |
| `Deliveries.BackoffHonoursProvider` | crates/alerting/src/recovery.rs:90-102 | the wait is at least the fixed one and what the provider asked for, up to an hour |
| `Deliveries.DeliveryQueue.MaybeScheduleRetry` | crates/api/src/alert_dispatch.rs:179-212 | only a transient failure below the third attempt is queued, with the next attempt and the backoff, unless the queue is full |
| `Deliveries.DeliveryQueue.Drain` | crates/api/src/alert_dispatch.rs:219-300 | the drain takes the due jobs, sends each and requeues what failed |
| `Deliveries.DueCount` | crates/db/src/redis/cache.rs:329-344 | a drain takes the longest prefix of due entries within its limit: all taken are due, and the next is not unless the limit is reached |
| `DeliveryOrder.RunOrdered` | crates/db/src/redis/cache.rs:315-327 | in every run the queue is in the order of time |
| `DeliveryOrder.DrainTakesDue` | crates/db/src/redis/cache.rs:329-344 | in every run a drain takes only entries that are due, all of them unless it takes fifty, none later than one left behind, and leaves the rest |
| `DeliveryOrder.ScheduleExactly` | crates/api/src/alert_dispatch.rs:179-212 | a failed attempt but the last, worth a retry, with room in the queue, is queued for the end of its wait in place of the same job, all other entries staying; otherwise nothing changes |
| `DeliveryOrder.BackoffIsLeast` | crates/alerting/src/recovery.rs:90-102 | the wait is the shortest that reaches one, five or fifteen minutes and what the provider asked for, the latter up to an hour |
| `DeliveryOrder.RetryableByClass` | crates/alerting/src/recovery.rs:76-88 | worth a retry are failures without a status, with 429 and with the classes from 500 on |
| `DeliveryOrder.FireExactly` | crates/api/src/main.rs:541-577 | a fired incident is sent to every entry listed, in order, and exactly what failed waits for a retry if the incident is recorded |
| `DeliveryOrder.NoSendIsSkipped` | crates/api/src/alert_dispatch.rs:219-300 | in every run there are as many sends as entries of fired incidents and drained jobs whose tenant exists |
| `DeliveryRuns.RunKeeps` | crates/api/src/alert_dispatch.rs:179-300 | in every interleaving of passes and drains, queued and drained jobs carry attempt 2 or 3 behind transient failures only, jobs are distinct, and sends made and still due stay within three for each listing |
| `DeliveryRuns.SendsAreBounded` | crates/alerting/src/recovery.rs:21-22 | an incident is sent to a channel at most three times for each time the rule lists it |
| `DeliveryRuns.OneQueuedJob` | crates/api/src/alert_dispatch.rs:177-300 | a channel listed once has at most one queued job of an incident, none while another is drained, and the job's attempt is one more than the failed sends so far, all transient |
| `DeliveryRuns.DrainShrinks` | crates/api/src/alert_dispatch.rs:234-299 | every job a drain handles leaves fewer attempts in the queue and in its hands |
| `DeliveryRuns.DrainIgnoresPass` | crates/api/src/alert_dispatch.rs:219-300 | a drain gives the same sends and queue whatever a pass has still to schedule |
| `DeliveryLimits.DeadChannel` | crates/api/src/main.rs:541-559 | a dead channel listed n times is sent to n times by the pass and twice more by drains, its retries being one job |
| `DeliveryLimits.AtMostThreeExactlyWithoutRepeats` | crates/alerting/src/recovery.rs:21-22 | no run sends more than three times if and only if the rule lists the channel at most once |
| `Pipeline.EventPipeline.IngestRows` | crates/api/src/broker_conn/pipeline.rs:22-46 | a batch is counted received, then counted inserted or buffered or dropped, by which calls succeed; an empty batch changes nothing |
| `Pipeline.EventPipeline.InsertWithRetry` | crates/api/src/broker_conn/pipeline.rs:191-234 | stored at the first or second try, else given to the buffer |
| `Pipeline.EventPipeline.BufferForRetry` | crates/api/src/broker_conn/pipeline.rs:236-264 | appended to a buffer cut to its limit, or counted dropped if the buffer is gone |
| `Pipeline.EventPipeline.DrainRetryQueue` | crates/api/src/main.rs:304-368 | replays the oldest batches: what reads back is stored and counted or requeued, the rest is given up |
| `Pipeline.EventPipeline.ReadAll` | crates/api/src/main.rs:317-344 | the loop over popped batches collects the good ones and counts the others as dropped |
| `PipelineFates.StepFates` | crates/api/src/main.rs:304-368 | every step stores, gives up and counts exactly the rows its calls say; a push goes last in its buffer and leaves the newest two thousand, a pop takes the front, a failed replay goes behind |
| `PipelineFates.ReadExactly` | crates/api/src/main.rs:317-344 | good are exactly the batches that read back as rows, in order; a list of unknown rows counts as dropped with its length, anything else as one |
| `PipelineRuns.EveryRowIsSomewhere` | crates/api/src/broker_conn/pipeline.rs:22-46 | over every interleaving each received row is stored, given up, cut off or waiting, as often as it was received, and the counters of received and inserted rows are exact |
| `PipelineRuns.BalanceShifts` | crates/api/src/main.rs:325-334 | each step moves received minus inserted, dropped and waiting by exactly the rows it leaves uncounted |
| `PipelineRuns.CountersAreOffBy` | crates/db/src/redis/cache.rs:346-359 | at any time the counters are off by exactly the rows that full buffers cut off and unreadable batches hide |
| `PipelineBalance.BalancedExactly` | crates/api/src/broker_conn/pipeline.rs:22-264 | in every run received is inserted plus dropped plus waiting after k steps if and only if in each of them a push had room and an unreadable batch had one row |
| `PipelineBalance.UncountedExactly` | crates/api/src/main.rs:325-334 | in every run no row was left uncounted if and only if every step counts all its rows |
| `PipelineBalance.RunKeepsNoneEmpty` | crates/api/src/broker_conn/pipeline.rs:22-46 | in every run no batch held, buffered or drained is empty |
| `PipelineBalance.UnreadablePairIsMiscounted` | crates/api/src/main.rs:325-334 | a run with one batch of two rows that cannot be read back, counted as one dropped event |
| `PipelineBalance.PushKeepsAllExactlyWithRoom` | crates/db/src/redis/cache.rs:346-359 | a push onto a buffer without empty batches loses no row if and only if the buffer is below its limit |
| `PipelineRuns.RequeuedGoLast` | crates/db/src/redis/cache.rs:372-386 | requeued batches stand behind all others; the next pop takes some of them if and only if the buffer held fewer batches than a pop takes, and begins with them if and only if it was empty |
| `PipelineRuns.NewBatchOvertakes` | crates/db/src/redis/cache.rs:372-386 | a batch that came in meanwhile is popped before the one that was requeued |
| `TaskNames.KnownNames` | crates/api/src/broker_conn/pipeline.rs:276-281 | the first name the batch gives each task |
| `TaskNames.AddCached` | crates/api/src/broker_conn/pipeline.rs:283-297 | cached names are added for nameless tasks and never replace a name of the batch |
| `TaskNames.FillIn` | crates/api/src/broker_conn/pipeline.rs:299-305 | only nameless events change, and only in their name |
| `TaskNames.BackfillTaskNames` | crates/api/src/broker_conn/pipeline.rs:271-311 | the batch is named in place and the cache takes the batch's names; without an answer of the cache the batch names itself |
| `TaskNames.NamelessExactly` | crates/api/src/broker_conn/pipeline.rs:271-311 | an event stays nameless if and only if neither batch nor cache has a name for its task |
| `TaskNames.NamingIsIdempotent` | crates/api/src/broker_conn/pipeline.rs:271-311 | naming a named batch changes nothing |
| `TaskNames.NamesStick` | crates/api/src/broker_conn/pipeline.rs:268-311 | over a run of batches a nameless event gets the first name of the last batch that names its task, and none stays nameless once its task was named |
| `WorkerBatch.Deduplicate` | crates/api/src/broker_conn/pipeline.rs:81-98 | for each worker the first event of the largest timestamp, and all online and offline events in order |
| `WorkerBatch.TransitionsInOrder` | crates/api/src/broker_conn/pipeline.rs:86-88 | the transitions of a batch are those of its parts, one after the other, and of a single event itself or nothing: the online and offline events, each as often as it came, in order |
| `WorkerBatch.DeduplicatedUniquely` | crates/api/src/broker_conn/pipeline.rs:81-98 | that description leaves one result |
| `DagBuilder.BuildDag` | crates/engine/src/dag_resolver.rs:48-144 | the nodes as given, the first as root, and the edges of the four phases |
| `DagBuilder.DrawParents` | crates/engine/src/dag_resolver.rs:72-85 | an edge from each parent that is a task, and both ends marked connected |
| `DagBuilder.DrawPairs` | crates/engine/src/dag_resolver.rs:89-99 | the double loop draws each pair of members once |
| `DagBuilder.DrawGroups` | crates/engine/src/dag_resolver.rs:87-100 | all groups, in whatever order the map gives them |
| `DagBuilder.DrawChords` | crates/engine/src/dag_resolver.rs:102-128 | all chords with a callback, in whatever order the map gives them |
| `DagBuilder.DrawPath` | crates/engine/src/dag_resolver.rs:135-141 | an edge for each window of two |
| `Dag.Index` | crates/engine/src/dag_resolver.rs:61-67 | the index from key to members lists each key's tasks in input order |
| `DagProperties.EdgesJoinTasks` | crates/engine/src/dag_resolver.rs:72-143 | every edge joins two tasks of the input |
| `DagEdges.ChordEdgesExactly` | crates/engine/src/dag_resolver.rs:102-128 | an edge leads from one task to another as a chord if and only if the first has a chord and the second is the first task of the input that is named by it or belongs to it without a group; once each |
| `DagEdges.GroupEdgesExactly` | crates/engine/src/dag_resolver.rs:87-100 | an edge leads from one task to another as a group if and only if both have one group and the first comes first in the input; once each |
| `DagEdges.ChainEdgesExactly` | crates/engine/src/dag_resolver.rs:72-141 | the chain edges are the parent links within the input and one path upwards through exactly the tasks without a group that nothing else touches; once each |
| `DagProperties.GroupIsComplete` | crates/engine/src/dag_resolver.rs:87-100 | a group of n tasks has n(n-1)/2 group edges, exactly one for each unordered pair, none of them elsewhere in the graph |
| `DagProperties.FallbackIsOnePath` | crates/engine/src/dag_resolver.rs:130-141 | the fallback edges are one path, ascending by id, through exactly the ungrouped tasks that no other edge touches |
| `LiveBatch.MatchesAnySubscription` | crates/api/src/ws/handler.rs:170-207 | true if and only if some subscribed topic asks for the event |
| `LiveBatch.DashboardSocket.constructor` | crates/api/src/ws/handler.rs:57-73 | a fresh socket with the four default topics and nothing pending |
| `LiveBatch.DashboardSocket.Round` | crates/api/src/ws/handler.rs:75-165 | one round of the loop for each thing it waits for |
| `LiveBatch.DashboardSocket.Obey` | crates/api/src/ws/handler.rs:79-103 | subscribe, unsubscribe and ping, with their answers |
| `LiveBatch.DashboardSocket.Take` | crates/api/src/ws/handler.rs:117-127 | a task event is counted and kept among the last five, any other is queued |
| `LiveBatch.DashboardSocket.SendBatches` | crates/api/src/ws/handler.rs:140-162 | the queued events one by one, then the batch; a failing send ends the socket |
| `LiveBatchRuns.RunDelivers` | crates/api/src/ws/handler.rs:57-168 | over any run the counts sent and pending add up to the task events accepted, each batch shows the last five of its own events, other events are sent once each in order; a closed socket was sent a part, in order |
| `LiveBatchRuns.FlushLeavesNothing` | crates/api/src/ws/handler.rs:135-163 | behind a flush that leaves the socket open everything accepted has been sent |
| `LiveBatchRuns.ClosesOnlyWithReason` | crates/api/src/ws/handler.rs:75-165 | a socket closes only if the client hung up or a send failed |
| `LiveBatchRuns.StaysClosed` | crates/api/src/ws/handler.rs:75-165 | a hangup closes the socket, and a closed socket stays as it is |
| `LiveBatchRuns.EveryCommandIsAnswered` | crates/api/src/ws/handler.rs:79-103 | while the socket is open every subscription has been confirmed and every ping answered, in order |
| `LiveBatchRuns.FlushSendsInOrder` | crates/api/src/ws/handler.rs:135-163 | a flush sends the queued events and then the batch, as many as there is room for, and closes the socket if that is not all |
| `LiveBatchRuns.OnlyOwnEvents` | crates/api/src/ws/handler.rs:108-128 | each accepted event is of the own tenant and was asked for when it came |
| `LiveSubscriptions.SubscribedExactly` | crates/api/src/ws/handler.rs:57-103 | while the socket is open a topic is subscribed if and only if the last command that names it is a subscription, or none unsubscribes it and it is one of the four of the start |
| `LiveSubscriptions.TakenExactly` | crates/api/src/ws/handler.rs:105-127 | while the socket is open it takes exactly the events of the own tenant that such a topic is about, each once and in order |
| `LiveSubscriptions.EveryWantedEventIsTaken` | crates/api/src/ws/handler.rs:105-127 | an own event that comes on an open socket while such a topic is about it is taken |
| `LiveSubscriptions.WantsExactly` | crates/api/src/ws/handler.rs:170-207 | an event is wanted if and only if some subscribed topic is about it, topic by topic |
| `Redaction.RedactUrlCredentials` | crates/common/src/redact.rs:6-37 | the rewriting loop computes the redaction |
| `Redaction.PushMasked` | crates/common/src/redact.rs:17-32 | the match on userinfo appends the masked authority |
| `RedactionProperties.RedactIsIdempotent` | crates/common/src/redact.rs:6-37 | redacting twice is redacting once, for every text |
| `RedactionProperties.UnchangedExactlyIfMasked` | crates/common/src/redact.rs:4-37 | a text comes back unchanged if and only if every authority the loop looks at is masked already |
| `RedactionProperties.MaskMasks` | crates/common/src/redact.rs:17-32 | a masked authority has no userinfo, or an empty one, or three stars with or without a name, and masking leaves exactly those alone |
| `RedactionProperties.ResultIsCleanExactly` | crates/common/src/redact.rs:6-37 | every authority of the result is masked if and only if those behind a `://` that the loop passes over were masked in the text |
| `RedactionProperties.CleanExactly` | crates/common/src/redact.rs:9-34 | the authorities of a text are those the loop looks at and those it passes over |
| `RedactionProperties.RedactsApart` | crates/common/src/redact.rs:9-34 | text up to a blank, quote, comma or parenthesis is redacted on its own |
| `RedactionProperties.PasswordIsMasked` | crates/common/src/redact.rs:4-32 | the output is the same for every password without stop characters: name and host stay, the password becomes three stars |
| `RedactionProperties.TokenIsMasked` | crates/common/src/redact.rs:25-26 | a lone token becomes three stars, the host stays |
| `RedactionProperties.PasswordIsMaskedExactly` | crates/common/src/redact.rs:4-16 | a connection string comes out with three stars for its password if and only if the password has no stop character |
| `RedactionProperties.CommaHidesPassword` | crates/common/src/redact.rs:12-16 | a string with a comma in its password comes back unchanged |
| `RedactionProperties.HiddenTokenStays` | crates/common/src/redact.rs:9-16 | a string whose second `://` is never looked at |
| `Series.BucketizeRange` | apps/web/src/lib/series.ts:35-72 | buckets of one width side by side from the one that holds the start, each with the sums of its own rows |
| `SeriesProperties.NiceStepFits` | apps/web/src/lib/series.ts:27-33 | the width is one people read at a glance and wide enough for the target |
| `SeriesProperties.NiceStepIsLeast` | apps/web/src/lib/series.ts:30-33 | no readable width below it is wide enough |
| `SeriesProperties.FewBuckets` | apps/web/src/lib/series.ts:36-45 | at most two buckets more than asked for, and one more for a window of whole minutes |
| `SeriesProperties.BucketsCoverWindow` | apps/web/src/lib/series.ts:42-45 | the first bucket holds the start and the last one reaches the end |
| `SeriesProperties.WindowIsNearest` | apps/web/src/lib/series.ts:42-42 | the length in minutes is the nearest whole number, the higher of two, and at least one |
| `SeriesProperties.IndexFindsBucket` | apps/web/src/lib/series.ts:82-87 | the index names the one bucket whose interval holds the time |
| `SeriesProperties.IndexClamps` | apps/web/src/lib/series.ts:82-87 | times before all buckets go to the first, times behind them to the last |
| `SeriesProperties.TotalsAreConserved` | apps/web/src/lib/series.ts:60-71 | the sums over all buckets are those of the rows between the first bucket and the end of the last one |
| `SeriesProperties.SumsByField` | apps/web/src/lib/series.ts:60-71 | each field of a sum is the sum of that field over the rows |
| `SeriesProperties.OnlyTheEdgeIsLost` | apps/web/src/lib/series.ts:45-62 | of the rows of the window only those at the end itself are lost, and they are exactly if the end is the edge of a bucket |
| `SeriesProperties.LastMomentIsLost` | apps/web/src/lib/series.ts:45-62 | an hour that ends on the minute with a row at its last moment |
| `FailureGroups.FoldRow` | apps/web/src/lib/fingerprint.ts:111-124 | the fold keeps count, number of messages, earliest and latest time, the first newest row's text, task and traceback, the names and the samples those of the rows folded |
| `FailureGroups.AddNames` | apps/web/src/lib/fingerprint.ts:124-124 | names already listed are not added again, all others are, behind those listed |
| `FailureGroups.SampleRows` | apps/web/src/lib/fingerprint.ts:114-123 | three samples, or all if there are fewer, taken from the rows, the front one as new as any |
| `FailureMerge.MergeFailureGroups` | apps/web/src/lib/fingerprint.ts:89-127 | one group for each fingerprint, folded from its rows, by count and then by last time downwards, ties in the order of their first rows; total count and number of rows are conserved |
| `FailureMerge.SortKeeps` | apps/web/src/lib/fingerprint.ts:126-126 | sorting orders by count and then by last time and keeps groups and totals |
| `FailureMerge.SamplesNewestFirstExactly` | apps/web/src/lib/fingerprint.ts:83-123 | the samples are newest first if and only if the third row of the group is not between the first two with no newer row behind |
| `FailureMerge.SamplesOutOfOrder` | apps/web/src/lib/fingerprint.ts:114-123 | rows last seen at 3, 1 and 2 are listed in that order |
| `Anomaly.VarianceOfAllBuckets` | crates/alerting/src/stats.rs:29-41 | the variance from the moments of the present buckets is that of all buckets with zeros for the absent ones, so it is never negative |
| `Anomaly.ZscoreMeaning` | crates/alerting/src/stats.rs:29-41 | the score is the distance from the mean of all buckets over a deviation whose square is the largest of variance, mean and one |
| `Anomaly.ZscoreIsBounded` | crates/alerting/src/stats.rs:29-41 | the throughput score has the sign of the distance from the mean of all buckets, is zero only for no distance, and is never larger |
| `Anomaly.NoBaseline` | crates/alerting/src/stats.rs:34-36 | without buckets the score is zero |
| `Anomaly.ScoreNames` | crates/alerting/src/stats.rs:37-40 | the score carries the count it is about and the mean of all buckets |

## Left out

- HTTP routes, authentication, SQL, ClickHouse and Redis drivers, brokers and channel senders: input and output. Their
  results are parameters of the steps, finite maps or sequences of rows.
- Floating point: `str::parse::<f64>` and the printing of numbers are functions the parser is given; times, metric counts
  and scores are integers or reals, so rounding and NaN are not modelled.
- PythonRepr.Repr: bytes, sets and objects have no JSON value and are outside the round trip; no token tree spells them, so
  the parser's answer to them follows from the language it accepts.
- PyReprForms.AcceptedReadsAsPython: assumes that the float library reads finite numbers in the decimal grammar only.
  For a dictionary that repeats a key and also has an octal escape in a key, where entries can swap places, the exact
  condition is not stated for equal values; rejection is.
- PythonLiteral.PythonValue: covers the token trees the parser accepts, not all of Python's literals.
- RetryChain.GetRetryChain: a failing database read ends the walk with an error in the code; the model's reads succeed.
- TaskHistory.TaskLatest: of two events with one timestamp the first in the history wins, and `any` keeps the agent of
  the first event; the database may pick either. The tenant, one for each query, is no column, and a missing value and
  an empty one are the same.
- TaskQueryReading.ListQueryMeans: the clause is a list of tokens and the model reads the part of SQL that the builder writes;
  the case-insensitive search function of the database is any function of two texts.
- TaskGlob.CompiledMatchesGlob: the reader covers literals, escapes, the dot, the star and the two anchors, which is all that
  the compiler writes.
- Paging of the task summary: it groups rows behind the cursor, so a task can come again on a later page.
- AlertPass.AlertLoop.RunPass: database reads and writes succeed, except recording a fire, which may fail; the code treats a
  failing read as an empty answer. Silences only hold notifications and do not appear. One tenant is modelled.
- AlertRuns.FiresAreSpaced: the clock does not run backwards, cooldowns are 32-bit, and the fires are those of one process;
  a restart forgets all of them.
- DeliveryRuns.RunKeeps: a process that stops between taking a job and handling it loses the job; runs have no such stop.
  Adding to the queue and taking from it succeed, apart from the limit of the queue.
- Deliveries.Insert: a job due at the same second as others goes behind them; the sorted set orders such jobs by their text.
- Deliveries.DeliveryQueue.Drain: malformed jobs are dropped in the code before anything else; the model's jobs are well formed.
- PipelineRuns.EveryRowIsSomewhere: counter updates and requeues succeed and a failed insert stores nothing.
- TaskNames.NamesStick: cached names expire after a while in the code; the run is shorter than that.
- WorkerBatch.Deduplicate: sampling of heartbeats and the updates of worker state in Redis are not modelled.
- DagBuilder.BuildDag: task ids are distinct, as the rows of the query that groups by task id are, and ids stand for
  their place in the byte order of the strings.
- LiveBatch.DashboardSocket.Round: serialisation succeeds and the count stays within 64 bits.
- Series.BucketizeRange: labels of buckets are not modelled; widths divide exactly instead of in floating point.
- FailureMerge.MergeFailureGroups: the fingerprint is any function of the message; the fingerprint itself rewrites the text
  with regular expressions and is not modelled, and groups are values in an insertion-ordered list instead of map entries.
- The latency score, the error spike factor, missed schedules, percentile clamping, severity names, permission lists,
  supervisor backoff and formatting helpers: single expressions that would only add easy members.
