# XML-to-BigQuery flattener, modelled in Dafny

`BigQueryService.UploadXmlToBigQuery` loads one XML file and turns every
element of the document into one table row. A row has these columns:

- `id`: drawn from a counter that starts at 1.
- `parent_id`: the id of the enclosing element, null for the root.
- `tag`: the element's `Name`.
- `attributes`: a dictionary of the element's attributes.
- `text`: the trimmed `InnerText`.
- `file_name` and `modification_time`: the file's name and last write time.

`ParseElement` walks the tree depth-first in pre-order. It threads the
counter by reference and appends each row to one shared list. Whenever the
list reaches 10000 rows, it inserts the list into the table and clears it.
Child nodes that are not elements are skipped. After the walk, whatever
remains in the list goes out as one last insert, only if the list is
non-empty. An insert that reports errors throws, which ends the upload.

The project has these modules:

- `XmlDom` (xml_dom.dfy): the parsed document and its nodes. It also has
  `DocumentElement`, the pre-order element list `Elements`, `InnerText`,
  and `String.Trim` over the .NET white-space set.
- `Rows` (rows.dfy): the row, the per-file provenance, and the attribute
  dictionary. The dictionary is built by a loop, `BuildAttributes`, which is
  specified by the function `AttributeMap`.
- `Flatten` (flatten.dfy): `Preorder`, the row sequence one walk produces,
  as a pure function of the tree, the first id and the parent id. Its
  lemmas cover id density, provenance, parent links and document order.
- `Batching` (batching.dfy): the size-triggered buffer as pure functions.
  `Feed` gives the batches flushed while rows are added one at a time.
  `Batches` adds the final partial batch. `Delivered` gives what reaches a
  sink that stops at the first rejected batch.
- `BigQuery` (bigquery_service.dfy): the imperative service. It has these
  classes:
  - `TableSink`: the table's insert call, which records every batch it is
    handed. An oracle says which calls report errors.
  - `ParseState`: the by-reference counter and the shared row list.
  - `BigQueryService`: holds the recursive methods, which carry `modifies`
    clauses. Each method's contract ties the new counter, list and sink log
    to `Feed`/`Delivered` applied to `Preorder`.

A thrown exception is modelled as the result `ok == false`. The methods'
contracts state the exact sink contents in both outcomes.

## Model

| member | source | states |
|---|---|---|
| XmlDom.DocumentElement | src/BigQueryUpload/BigQueryService.cs:56-57 | The root is absent exactly when the document has no element node. Otherwise it is an element with no element before it. |
| XmlDom.FirstElement | src/BigQueryUpload/BigQueryService.cs:56 | Definition behind `DocumentElement`: the first node of a run that is an element. Its own contract says it is absent exactly when no node is an element, and otherwise it is that node. |
| XmlDom.InnerText | src/BigQueryUpload/BigQueryService.cs:96 | Definition of `InnerText`: all descendant text, CDATA and white-space data in document order. Comments and processing instructions are skipped. Specified by InnerTextOfAppend, InnerTextSkipsMarkup and InnerTextOfElement. |
| XmlDom.InnerTextOf | src/BigQueryUpload/BigQueryService.cs:96 | Definition: the `InnerText` of a run of sibling nodes, joined in order. Specified by InnerTextOfAppend. |
| XmlDom.InnerTextOfAppend | src/BigQueryUpload/BigQueryService.cs:96 | The text of two runs of nodes is the first run's text followed by the second's. |
| XmlDom.InnerTextSkipsMarkup | src/BigQueryUpload/BigQueryService.cs:96 | Removing a comment or processing instruction from a run of nodes leaves its text unchanged. |
| XmlDom.InnerTextOfElement | src/BigQueryUpload/BigQueryService.cs:96 | An element's text is its children's texts in document order, split at any child. |
| XmlDom.Trim | src/BigQueryUpload/BigQueryService.cs:96 | Definition of `String.Trim`: the input without its leading and trailing white space. Specified by TrimSpec, TrimHasNoOuterWhiteSpace and TrimCutsOnlyWhiteSpace. |
| XmlDom.Elements | src/BigQueryUpload/BigQueryService.cs:116-121 | The pre-order visiting list holds only elements and starts with the element itself. A non-element contributes none. |
| XmlDom.LeadingWhiteSpaceIsLongest | src/BigQueryUpload/BigQueryService.cs:96 | The leading run that is counted is all white space, and the character after it is not. |
| XmlDom.TrailingWhiteSpaceIsLongest | src/BigQueryUpload/BigQueryService.cs:96 | The trailing run that is counted is all white space, and the character before it is not. |
| XmlDom.TrimEnd | src/BigQueryUpload/BigQueryService.cs:96 | Cutting trailing white space leaves text that does not end in white space. It cuts only white space, and keeps a text whose first character is not white space non-empty. |
| XmlDom.TrimHasNoOuterWhiteSpace | src/BigQueryUpload/BigQueryService.cs:96 | `Trim`'s result neither starts nor ends with white space. |
| XmlDom.TrimCutsOnlyWhiteSpace | src/BigQueryUpload/BigQueryService.cs:96 | Everything `Trim` removes before and after the kept text is white space. |
| XmlDom.TrimSpec | src/BigQueryUpload/BigQueryService.cs:96 | The trimmed text is the slice of the input after its leading white space. It has no outer white space, and only white space surrounds it in the input. |
| Rows.AttributeMap | src/BigQueryUpload/BigQueryService.cs:83-87 | Definition of the dictionary the loop builds: every attribute assigned in order, so the last one of a name wins. Specified by AttributeMapKeys, AttributeMapLastWins and AttributeMapExact. |
| Rows.MakeRow | src/BigQueryUpload/BigQueryService.cs:90-99 | Definition of the row built for one element: the given id and parent id, the element's Name, its attribute map, its trimmed InnerText, and the file name and time. The walk builds this row field by field, and ParseElement's proof checks it equals MakeRow. PreorderDescribesElements states which row each element gets. |
| Rows.BuildAttributes | src/BigQueryUpload/BigQueryService.cs:83-87 | The dictionary-filling loop yields `AttributeMap` of the element's attributes. |
| Rows.AttributeMapKeys | src/BigQueryUpload/BigQueryService.cs:83-87 | The dictionary's keys are exactly the attribute names. It is the empty map, not absent, exactly when there are no attributes. |
| Rows.AttributeMapLastWins | src/BigQueryUpload/BigQueryService.cs:86 | A name maps to the value of the last attribute carrying it, because assignment overwrites. |
| Rows.AttributeMapExact | src/BigQueryUpload/BigQueryService.cs:83-87 | With distinct names, the dictionary maps each attribute's name to its own value and has no other keys. |
| Flatten.Preorder | src/BigQueryUpload/BigQueryService.cs:80-121 | Definition of the rows one walk emits: the element's row, then its children's rows. Specified by PreorderLength, PreorderDescribesElements, PreorderParents, SubtreeBlock and ChildRowPointsAtParent. |
| Flatten.ChildRows | src/BigQueryUpload/BigQueryService.cs:116-121 | Definition of the rows the child loop emits: each child's rows in document order, ids continuing from the counter. Specified by ChildRowsLength, ChildRowsDescribeElements, ChildRowsParents, ChildRowsPrefix, ChildRowsSnoc, SiblingBlock and NonElementsEmitNothing. |
| Flatten.PreorderLength | src/BigQueryUpload/BigQueryService.cs:80-100 | A walk emits exactly one row per element of the tree. |
| Flatten.ChildRowsLength | src/BigQueryUpload/BigQueryService.cs:116-121 | The walk over a run of siblings emits one row per element in their subtrees. |
| Flatten.PreorderDescribesElements | src/BigQueryUpload/BigQueryService.cs:80-99 | Row k is the row of the k-th element in pre-order. It has id firstId + k, the element's name, attribute map and trimmed text, and the file's name and time. Its first clause is the count that PreorderLength states on its own. |
| Flatten.ChildRowsDescribeElements | src/BigQueryUpload/BigQueryService.cs:116-121 | Over a sibling run, row k describes the run's k-th element in document order and has id firstId + k. |
| Flatten.PreorderParents | src/BigQueryUpload/BigQueryService.cs:92-93 | The first row has the parent id the walk was given. Every later row's parent is an id emitted strictly before it. |
| Flatten.ChildRowsParents | src/BigQueryUpload/BigQueryService.cs:116-121 | Rows of a sibling run point either at the enclosing element or at an earlier row of the run. |
| Flatten.ChildRowsPrefix | src/BigQueryUpload/BigQueryService.cs:116-121 | Visiting the first i siblings emits a prefix of the rows of visiting all of them. |
| Flatten.ChildRowsSnoc | src/BigQueryUpload/BigQueryService.cs:116-121 | Visiting one more sibling appends its subtree's rows, with ids continuing from the counter. |
| Flatten.SiblingBlock | src/BigQueryUpload/BigQueryService.cs:116-121 | The i-th sibling's rows sit contiguously right after the rows of the earlier siblings. |
| Flatten.SubtreeBlock | src/BigQueryUpload/BigQueryService.cs:118-120 | The i-th child element's subtree is a non-empty contiguous block of its parent's rows. The block starts after the parent's row and the earlier children's elements. |
| Flatten.ChildRowPointsAtParent | src/BigQueryUpload/BigQueryService.cs:93-120 | A child element's row has the id that follows the earlier rows, and its parent id is the enclosing element's id. Applied level by level through SubtreeBlock, this gives every row the id of its enclosing element. |
| Flatten.NonElementsEmitNothing | src/BigQueryUpload/BigQueryService.cs:118 | Text, comment and processing-instruction children emit no rows. |
| Batching.Step | src/BigQueryUpload/BigQueryService.cs:100-113 | Adding one row flushes a batch exactly when the buffer then holds BatchSize rows. Otherwise the flushed list is unchanged. |
| Batching.Feed | src/BigQueryUpload/BigQueryService.cs:100-113 | Definition of the buffer after each row has been added and flushed at 10000, one row at a time. Specified by FeedKeepsOrder, FeedBatchSizes, FeedKeepsEveryItem, FeedAppend and FeedOne. |
| Batching.FeedSnoc | src/BigQueryUpload/BigQueryService.cs:100-113 | Feeding one more row is one more step of the buffer. |
| Batching.FeedOne | src/BigQueryUpload/BigQueryService.cs:100-112 | One row flushes buffer+row when that reaches 10000 and leaves the buffer empty. Otherwise it only extends the buffer. |
| Batching.FeedAppend | src/BigQueryUpload/BigQueryService.cs:100-113 | Feeding two runs of rows equals feeding the second into what the first left pending, with the flushed batches concatenated. |
| Batching.StepAfter | src/BigQueryUpload/BigQueryService.cs:100-113 | One step of the buffer leaves earlier flushed batches in front of whatever it flushes. |
| Batching.FeedKeepsOrder | src/BigQueryUpload/BigQueryService.cs:100-112 | The flushed batches joined, followed by the buffer, give back the old buffer and the fed rows in order, with none dropped or duplicated. |
| Batching.FeedBatchSizes | src/BigQueryUpload/BigQueryService.cs:103-112 | Starting below 10000, every flushed batch has exactly 10000 rows and the buffer stays below 10000. |
| Batching.FeedKeepsEveryItem | src/BigQueryUpload/BigQueryService.cs:100-113 | The combined statement of FeedKeepsOrder and FeedBatchSizes: starting below 10000, no row is dropped or reordered, every flushed batch is full, and the buffer stays below 10000. |
| Batching.Batches | src/BigQueryUpload/BigQueryService.cs:59-72 | Definition of all of an upload's batches: the flushed ones, then the final partial one when non-empty. Specified by BatchesKeepEveryItem. |
| Batching.BatchesKeepEveryItem | src/BigQueryUpload/BigQueryService.cs:59-72 | An upload's batches, the non-empty final one included, join to the rows in order. None is empty, all but the last have 10000 rows, and there are ceil(n / 10000) of them. |
| Batching.Delivered | src/BigQueryUpload/BigQueryService.cs:107-111 | Definition of what reaches the table: every batch up to and including the first rejected one, since the rejection throws. Specified by DeliveredOutcome, DeliveredAppend and FailureIsFinal. |
| Batching.DeliveredAppend | src/BigQueryUpload/BigQueryService.cs:107-111 | Handing over two runs of batches: the second follows only if every batch of the first was accepted. |
| Batching.DeliveredOutcome | src/BigQueryUpload/BigQueryService.cs:107-111 | All batches reach the sink when all are accepted. Otherwise a non-empty prefix does, ending at the first rejected batch, with every earlier batch accepted. |
| Batching.DeliverThen | src/BigQueryUpload/BigQueryService.cs:106-112 | A sink holding an accepted first run plus what reaches it of a second run holds what reaches it of both. The whole is accepted exactly when the second run is. |
| Batching.FeedThenDeliver | src/BigQueryUpload/BigQueryService.cs:100-113 | Feeding rows in two parts delivers what feeding them at once does, and leaves the same buffer. |
| Batching.DeliverLast | src/BigQueryUpload/BigQueryService.cs:63-71 | After accepted batches, the final batch is handed over. The upload is accepted exactly when that insert is. |
| Batching.FailureIsFinal | src/BigQueryUpload/BigQueryService.cs:107-110 | Once a flushed batch is rejected, rows that would have been fed later change nothing that reaches the sink. |
| BigQuery.TableSink.InsertRows | src/BigQueryUpload/BigQueryService.cs:106-107 | The sink logs the batch. `ok` is false exactly when this call is one that reports errors. |
| BigQuery.ParseState.constructor | src/BigQueryUpload/BigQueryService.cs:51-59 | The counter starts at the given id and the row list starts empty. |
| BigQuery.BigQueryService.constructor | src/BigQueryUpload/BigQueryService.cs:15-18 | The service keeps the given table client. Creating the client from a project id is not modelled. |
| BigQuery.UploadedRows | src/BigQueryUpload/BigQueryService.cs:51-72 | The batches of an upload join to its pre-order rows, one per element. Ids run 1..N and every row has the file's name and time. The root's parent is null and every other parent id is smaller than the row's id. |
| BigQuery.ChildSkipped | src/BigQueryUpload/BigQueryService.cs:118 | Skipping a non-element child advances the walk over the children with nothing emitted. |
| BigQuery.ChildWalked | src/BigQueryUpload/BigQueryService.cs:118-120 | Walking a child element with every insert accepted advances the walk past the child's rows. |
| BigQuery.ChildFailed | src/BigQueryUpload/BigQueryService.cs:116-121 | A child element whose walk had an insert rejected leaves the sink with what all the children's rows would deliver, which is not accepted in full. |
| BigQuery.RowRejected | src/BigQueryUpload/BigQueryService.cs:103-111 | If an element's own row fills the buffer and that insert is rejected, nothing from its subtree reaches the sink. |
| BigQuery.ElementWalked | src/BigQueryUpload/BigQueryService.cs:100-121 | An element's row, buffered or flushed, followed by its children's walk, amounts to feeding the element's pre-order rows. |
| BigQuery.BigQueryService.ParseElement | src/BigQueryUpload/BigQueryService.cs:78-123 | The sink receives exactly the batches that feeding the subtree's pre-order rows flushes, up to the first rejected one. `ok` holds iff all were accepted, and then the counter has advanced by the element count and the list holds the remainder. |
| BigQuery.BigQueryService.ParseChildren | src/BigQueryUpload/BigQueryService.cs:116-122 | The same for the child loop: the children's rows are fed in document order, element children only, and the loop stops at the first rejected insert. |
| BigQuery.BigQueryService.UploadXmlToBigQuery | src/BigQueryUpload/BigQueryService.cs:49-72 | Without a root element nothing is inserted. Otherwise the sink receives `Batches` of the root's rows (ids from 1, null parent), up to the first rejected one. `ok` holds iff all were accepted. |

## Left out

- The table existence check, schema construction and `CreateTable` (BigQueryService.cs:24-47) are calls into the BigQuery client. Only the insert call is modelled.
- Loading the file (`XmlDocument.Load`), `File.GetLastWriteTime` and `ToUniversalTime` are I/O and library time handling. The parsed `Document` and a `Provenance` (the file name and a UTC timestamp) are inputs.
- The attribute dictionary is not encoded as JSON (`JsonConvert.SerializeObject` is a foreign library). The row carries the dictionary itself.
- Console logging is not modelled.
- The service constructor does not create a client from a project id (`BigQueryClient.Create`, BigQueryService.cs:15-18). It takes the table sink as an argument.
- `InnerText` is modelled as the concatenation of all descendant text, CDATA and white-space nodes. Comments and processing instructions contribute nothing. Entity expansion and the other details of the XML reader are not modelled.
- `Trim` removes the characters `Char.IsWhiteSpace` accepts, listed explicitly. There is no Unicode normalisation.
- Ids are unbounded integers. The C# `int` counter would wrap after 2^31 - 1 elements, and that is not modelled.
- A batch whose insert reports errors is recorded as received in full. BigQuery may have stored some of its rows, and which ones is not modelled.
- Exceptions are modelled as `ok == false`. An exception other than a rejected insert (network failures, a malformed file) is not modelled.
- BigQuery.BigQueryService.ParseElement: the final counter and list are stated only when every insert is accepted. After a rejected insert, the C# code throws out of the whole upload, so neither is observed again.
- BigQuery.BigQueryService.ParseChildren is not a separate method in the source. It is the `foreach` over child nodes inside `ParseElement` (BigQueryService.cs:116-122), written as a method of its own that the two call recursively.
- The `tag` column is the element's `Name` unchanged, as the code writes it. No namespace prefix is stripped, although some variants of the system strip one fixed prefix.
- The flush threshold is 10000, as in the code. The comment beside it says 1000.
- `Program.cs` and `XmlUploader.cs` (configuration, directory enumeration, file reading) are not part of this model.
