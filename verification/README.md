# A verified model of the repository's sanitizers, caches and daemons

A Dafny 4.11 model of the hand-written algorithms and protocols of the repository, with proofs of what they promise.
`dafny verify dfyconfig.toml` checks all of it. Python code that changes state step by step is modelled by methods and
classes proved against functions; the theorems are about those functions, over every input and every run.

| files | what they model |
|---|---|
| `Text`, `Numbers` | the operations on Python `str` and `int` values that the code relies on |
| `CssLexer`, `CssGrammar`, `CssFilter`, `CssSanitizer` | the member stylesheet filter: its two lexers, its patterns as predicates over characters, its printer |
| `CssFixedPoints`, `CssEmission`, `CssTheorems`, `CssComments`, `CssWitnesses` | printed sheets are read back; everything emitted is in the accepted grammar; when the filter is idempotent |
| `CssDeletion`, `CssSpelling`, `CssDropped`, `CssSafety` | exactly the comments are deleted; every spelling of a well-formed sheet is kept; when something is reported as dropped; what no kept value holds |
| `SvgTree`, `SvgValidators`, `SvgPolicy`, `SvgBuild` | the SVG allowlist: one attribute, the rebuilding of a block, and its budgets |
| `SvgAttributes`, `SvgMeaning` | which attributes are kept; a built block, read from start to end, is its source without what is not kept, in order, and when it is built |
| `SvgIdempotence`, `SvgBlocks`, `SvgCaps` | a rebuilt block is clean and rebuilds to itself; the caps over one block, one call and one document |
| `SvgTails` | the two ways of taking children out while their tails stay, on mutable elements |
| `SvgDocument`, `SvgReattach`, `SvgFaithful`, `SvgProtocol`, `SvgXml`, `SvgStreams`, `SvgWitnesses` | detaching, cleaning and reattaching; the pass over XML trees; everything around the blocks stays what it is |
| `Cache`, `CacheRuns`, `CacheSchedules`, `CacheSteps` | the distributed cache as a system of workers, Redis, commits and a daemon |
| `WindowCounter` | the fixed-window counter in Redis |
| `BackupCommands`, `BackupArguments` | the commands of the backup worker and the sidecar's own check; what each argument is set to |
| `BackupJob`, `BackupReports` | one message from start to answer; the whole run of a job, and which calls are in it |
| `Spool`, `SpoolRuns`, `SpoolDirectory`, `SpoolExchange` | the spool directory between worker and sidecar, under every interleaving |
| `Tokens`, `TokenChecks`, `ProofOfWork` | signed challenges, and the arithmetic of the proof of work |
| `Quota`, `BinaryPool` | the published file size limit; the reference counting of pooled binaries |

## What the code does not do

Where the code and its own text disagree, the model follows the code, gives an input, and proves when the promise holds.

- `zero_sudo/css_sanitizer.py` says twice that running a filter on its own output changes nothing. It does, exactly
  when the output holds no comment mark and fits the size cap (`StylesheetIdempotent`, `StyleAttributeIdempotent`). The
  filters make no mark themselves, so it is enough that deleting the comments leaves none (`StableFromInput`).
- `sanitize_svg_element` adds the namespace after the bytes were charged, so a block within 31 bytes of the cap is
  refused the second time (`SanitizeIdempotent`, `SizeCapWitness`).
- `sanitize_xml_svgs` looks for a prefix with `":" in source.tag`, which is true of every namespaced name, so any
  rejected namespaced block counts as hostile, one that is only too large too (`RejectedHostility`, `OversizeWitness`).
- `distributed_redis_cache/README.md` guarantees that no worker serves a value from before the last invalidation. A
  value computed before a commit and stored after its poll stays (`LateStoreStays`). The guarantee holds in a run
  exactly if every store is in time (`CoherentExactly`); a schedule is coherent whatever the commits change exactly if
  no store comes too late for a commit that names its model (`ScheduleExactly`); and so is every schedule that keeps
  commits and polls out of the calls they would spoil (`ScheduledCoherent`, `AtomicCoherent`, `AtomicAnswers`).
- `execute_job` means to survive a failed throttled log update, but the error it catches never arrives. A job counts as
  done exactly if, besides its command, each of its updates went through (`DoneExactly`, `FailedUpdateFailsJob`).
- `execute_job` means never to acknowledge a job that it could neither run nor record because Odoo was away (the comment
  at lines 990-992 of `main.py`). It acknowledges a job for the sidecar first, and when the request then cannot be
  published and Odoo is away, the job is lost (`OutageWitness`); exactly then (`LostToOutage`, `UnrecordedExactly`).
- `_run_pgbackrest_via_sidecar` looks for the request and then removes it; the sidecar can come between, and a
  successful backup is reported as failed (`SuccessLost`); in any run the removal fails exactly then (`BreaksExactly`).
- `sanitize_xml_svgs` of a tree whose root is itself an `svg` fails on a validated root, which has no parent, and leaves
  a rejected one in place (`XmlOnlyClean`, `RootWitness`). Its one caller wraps the text in an element of its own.
- Deleting a manifest deletes its versions in the database without their `unlink`, and their files can stay
  (`ManifestsExactly`, `TidyExactly`, `VersionFileLeft`).

## Assumptions

- SVG: the tables of validators are a parameter. What is relied on is stated as `SvgTree.Sound` (a validator returns
  stripped text, no longer than its input, without `;`, `@`, backslash and `*`, which it returns unchanged) and
  `SvgBlocks.KeepsNamespace` (the entry of `xmlns`); `SvgPolicy` gives tables that meet both. `SvgAttributes` also
  relies on an entry for each listed name, none of them `style` or an ARIA name, which the same tables meet (`TablesFull`). The pattern of bad values,
  that of ARIA values and the size bound of an `svg` are arbitrary predicates.
- SVG documents: a comment of the document that spells a marker of the current nonce is not there before detaching
  (`NoMarks`); the nonce is random. The cleaner is an arbitrary function on trees.
- Cache: a commit, the deletion in Redis and the deletion in the worker's own memory are one step; Redis is reachable;
  code that changes cached results notifies for their models. Reading and storing of a missed call are two steps;
  `InTime` says when the second is in time. A missed call in the model reads the newest commit when it begins; in the
  code it reads the snapshot of its own transaction, which may be older than its look into the caches.
- Backup job: `basic_ack` and `basic_nack` succeed and memory suffices. How each call of Odoo goes is an arbitrary function, and
  so is how the command goes.
- Spool: job ids are not reused, no process is killed between its steps, and moving a request aside succeeds when it is
  there. Any number of jobs may be in the worker at once; there is one sidecar, as its unit has it, which is started
  only while a request is there.
- Tokens: `hmac` is an arbitrary function to 64 hexadecimal digits; `int` is any function that reads what `str` prints;
  the digest is an arbitrary function to bytes.
- Binary pool: different (name, checksum) pairs give different file names.

## Model

| member | source | states |
|---|---|---|
| `CssTheorems.StylesheetIdempotent` | `zero_sudo/css_sanitizer.py:224-239` | For every text, cleaning the cleaned sheet again returns it unchanged with nothing dropped if and only if it is empty, or fits the size cap and holds no comment mark. The docstring (line 27) promises it without a condition. |
| `CssTheorems.StyleAttributeIdempotent` | `zero_sudo/css_sanitizer.py:245-301` | The same for `style` attributes, with their own cap (docstring lines 261-262), even where the last value ends inside an open quote or parenthesis. |
| `CssComments.SheetUncommented` | `zero_sudo/css_sanitizer.py:182-239` | If deleting the comments of a text leaves no comment mark, the sheet printed from it has none: neither collapsing, stripping, splitting nor printing brings a `/` and a `*` together. |
| `CssComments.AttributeUncommented` | `zero_sudo/css_sanitizer.py:245-301` | The same for `style` attributes. |
| `CssComments.StableFromInput` | `zero_sudo/css_sanitizer.py:224-301` | For such a text both filters return their own output unchanged if and only if it fits the cap. |
| `CssWitnesses.AttributeCommentWitness` | `zero_sudo/css_sanitizer.py:245-301` | `top://**/*` is cleaned to `top:/*`, which does not clean to itself: a deleted comment can form a new one. |
| `CssWitnesses.SheetSizeWitness` | `zero_sudo/css_sanitizer.py:221-239` | Some sheet within the cap, from which nothing is dropped, is printed longer than the cap because of the newlines between its rules, and then refused whole. |
| `CssEmission.CleanRulesIdempotent` | `zero_sudo/css_sanitizer.py:182-221` | For every text, the rules kept from it are printed, parsed and kept again as the same rules, nothing dropped, and the rule counter ends at their number. |
| `CssFixedPoints.AcceptedIsFixed` | `zero_sudo/css_sanitizer.py:100-221` | Any accepted list of rules, however its rules are separated by spaces, is read back as itself: the scanner and the brace matcher agree on everything the printer writes. |
| `CssFixedPoints.SheetReadBack` | `zero_sudo/css_sanitizer.py:100-123` | `_parse_blocks` of a printed sheet gives exactly its (prelude, body) pairs. |
| `CssFixedPoints.BlockReadBack` | `zero_sudo/css_sanitizer.py:80-123` | One printed block is read back whole, with any text behind it. |
| `CssFixedPoints.RuleNested` | `zero_sudo/css_sanitizer.py:80-97` | Inside a block, a printed rule opens and closes exactly its own braces, for any nesting of `@media`. |
| `CssFixedPoints.PiecesReadBack` | `zero_sudo/css_sanitizer.py:147-156` | The scanner splits printed declarations at exactly the semicolons that were printed between them. |
| `CssFixedPoints.DeclReadBack` | `zero_sudo/css_sanitizer.py:126-175` | A printed declaration is read back as itself, with `!important` split off and put back. |
| `CssFixedPoints.ImportantReadBack` | `zero_sudo/css_sanitizer.py:128-133` | The pattern of `!important` finds, behind a stripped text, exactly the mark that was put there. |
| `CssFixedPoints.RulesKept` | `zero_sudo/css_sanitizer.py:182-221` | An accepted list of rules is kept whole from any count of rules that leaves room for it, and the count advances by its number. |
| `CssEmission.EmittedIsAccepted` | `zero_sudo/css_sanitizer.py:182-239` | Everything the filter keeps from any text is in the accepted grammar: nesting of `@media` at most 2, `@keyframes` only on top, at most 2000 rules, at most 200 declarations a rule, each with an allowed name and value. |
| `CssEmission.CleanItemsOk` | `zero_sudo/css_sanitizer.py:182-221` | The same at every depth, and inside `@keyframes`. |
| `CssEmission.CountBound` | `zero_sudo/css_sanitizer.py:178-221` | The counter shared by the whole recursion bounds the rules kept, also those inside groups. |
| `CssEmission.CleanValueOk` | `zero_sudo/css_sanitizer.py:126-144` | A kept value is stripped and collapsed, has balanced quotes and parentheses, and passes every condition of `_clean_value` again. |
| `CssEmission.ImportantCollapse` | `zero_sudo/css_sanitizer.py:128-134` | Collapsing the spaces of a value never makes a new `!important`. |
| `CssTheorems.SheetShape` | `zero_sudo/css_sanitizer.py:182-239` | The printed sheet has no `<`, `&` or backslash, its braces are balanced and are those of its rules, and it has exactly one `@` for each kept group. |
| `CssTheorems.CountCleaned` | `zero_sudo/css_sanitizer.py:182-221` | Quotes, brackets, slashes, stars and other characters the printer never adds occur in the output at most as often as in the input. |
| `CssLexer.Scan` | `zero_sudo/css_sanitizer.py:57-77` | The index loop of `_scan` computes how far the character machine runs. |
| `CssLexer.MatchingBrace` | `zero_sudo/css_sanitizer.py:80-97` | The index loop of `_matching_brace` finds the brace of the second machine, or None. |
| `CssLexer.ParseText` | `zero_sudo/css_sanitizer.py:100-123` | The loop of `_parse_blocks` returns the blocks of its specification. |
| `CssLexer.ScanConcat` | `zero_sudo/css_sanitizer.py:57-77` | What the scanner does with a concatenation, from any state. |
| `CssLexer.NestedFlat` | `zero_sudo/css_sanitizer.py:57-97` | Between braces the two machines follow the same quotes, whatever the parentheses do. |
| `CssFilter.SplitText` | `zero_sudo/css_sanitizer.py:147-156` | The piece loop of `_clean_declarations` returns the pieces of its specification. |
| `CssFilter.CleanDeclarations` | `zero_sudo/css_sanitizer.py:147-175` | The loops of `_clean_declarations` print exactly the kept declarations and report what was dropped. |
| `CssFilter.CleanRules` | `zero_sudo/css_sanitizer.py:182-221` | The recursion of `_clean_rules` with its mutable counter prints exactly the rules of the specification, reports what was dropped and leaves the counter at its count; the printed text is empty only without rules. |
| `CssSanitizer.SanitizeStylesheet` | `zero_sudo/css_sanitizer.py:224-239` | `sanitize_stylesheet` returns the text and the flag of the function that `SheetIgnoresComments`, `SheetSpelled`, `SheetDropped`, `SheetHarmless` and `StylesheetIdempotent` are about. |
| `CssSanitizer.KeepDeclarations` | `zero_sudo/css_sanitizer.py:278-301` | The loop of `sanitize_style_attribute`, with its early return from a malformed piece. |
| `CssSanitizer.SanitizeStyleAttribute` | `zero_sudo/css_sanitizer.py:245-301` | `sanitize_style_attribute` does the same for the function of `AttributeIgnoresComments`, `AttributeSpelled`, `AttributeDropped`, `AttributeHarmless` and `StyleAttributeIdempotent`. |
| `CssDeletion.DeletionExactly` | `zero_sudo/css_sanitizer.py:232-235` | Deletion removes exactly the comments: of a text written as pieces without a start mark and comments without an end mark in them, the pieces stay, in order; whether the last comment has no end is told. |
| `CssDeletion.EveryText` | `zero_sudo/css_sanitizer.py:38` | Every text is written so, which makes the row above one about all texts. |
| `CssDeletion.DeleteOne` | `zero_sudo/css_sanitizer.py:38` | A comment is deleted up to its first end mark, whatever follows; without an end mark it takes the rest, which is told. |
| `CssDeletion.SheetIgnoresComments` | `zero_sudo/css_sanitizer.py:224-239` | A sheet is filtered as the text without its comments, however many and wherever they are, flag included. |
| `CssDeletion.SheetUnended` | `zero_sudo/css_sanitizer.py:230-239` | A comment without an end leaves the sheet before it as it is filtered, and is reported. |
| `CssDeletion.AttributeIgnoresComments` | `zero_sudo/css_sanitizer.py:245-301` | A `style` attribute is filtered as the text without its comments. |
| `CssDeletion.AttributeIgnoresComment` | `zero_sudo/css_sanitizer.py:265-277` | One comment in it might as well not be there; one without an end empties it, which is reported. |
| `CssSpelling.SheetSpelled` | `zero_sudo/css_sanitizer.py:224-239` | Every sheet of well-formed rules within the caps, `@media` and `@keyframes` of any allowed nesting included, is printed in full and in order with nothing dropped, whatever its spaces, the case of its property names and of `!important`, its empty declarations and its comments are. |
| `CssSpelling.RulesSpelled` | `zero_sudo/css_sanitizer.py:182-221` | The same for the rules of any depth, from any count that leaves room for them. |
| `CssSpelling.SheetRead` | `zero_sudo/css_sanitizer.py:100-123` | `_parse_blocks` of such a text gives the (prelude, body) pair of each rule, without the spaces around the preludes. |
| `CssSpelling.BodySpelled` | `zero_sudo/css_sanitizer.py:147-175` | The declarations of such a body are kept in order, and nothing is dropped. |
| `CssSpelling.ValueSpelled` | `zero_sudo/css_sanitizer.py:126-144` | Such a value is read as its text with single spaces, and as important exactly if the mark is there, with spaces and letters of any kind. |
| `CssSpelling.AttributeSpelled` | `zero_sudo/css_sanitizer.py:245-301` | Every `style` attribute of well-formed declarations within the caps is printed in full and in order, however it is spelled. |
| `CssDropped.SheetDropped` | `zero_sudo/css_sanitizer.py:224-239` | A sheet that is not refused as a whole is reported as changed exactly if one of its blocks has no body, is a refused group, has a refused selector or a brace in its body, or holds something that is neither blank nor a good declaration or too many of these; or the blocks are too many; or the last comment has no end. |
| `CssDropped.ItemsDropped` | `zero_sudo/css_sanitizer.py:182-221` | The same for the blocks of any depth, with the counter they leave. |
| `CssDropped.DeclsDropped` | `zero_sudo/css_sanitizer.py:157-175` | Something of a body is dropped exactly if a piece is neither blank nor good, or the pieces are too many; otherwise all that is not blank is kept. |
| `CssDropped.AttributeDropped` | `zero_sudo/css_sanitizer.py:245-301` | A `style` attribute is reported as changed exactly if it is unbalanced, holds a brace, a forbidden character or an unended comment, or a piece is neither blank nor good, or they are too many; a malformed piece empties it. |
| `CssSafety.SheetHarmless` | `zero_sudo/css_sanitizer.py:46-54` | Whatever the text is, no value kept from it, at any depth, has one of the forbidden characters or words at any offset in any case, a forbidden call, or a `url` call that is no fragment; no kept property is a forbidden one, and `position` is one of three. |
| `CssSafety.AttributeHarmless` | `zero_sudo/css_sanitizer.py:278-301` | Nor has any value kept from a `style` attribute. |
| `SvgTree.CleanStyleIdempotent` | `zero_sudo/svg_sanitizer.py:383-401` | `_clean_style` returns its own result unchanged, for any sound validators. |
| `SvgTree.CleanAttributeIdempotent` | `zero_sudo/svg_sanitizer.py:404-422` | `_clean_attribute` returns its own result unchanged, under the canonical name. |
| `SvgTree.KeepAttributeIdempotent` | `zero_sudo/svg_sanitizer.py:454-475` | An attribute that `_build` kept, stored under its XML name, is kept unchanged when the result is rebuilt. |
| `SvgTree.KeepAttributeMeans` | `zero_sudo/svg_sanitizer.py:404-475` | A kept attribute is not one the calling field refuses, has a canonical name and a value that passes its check and is not bad; on an `svg` it is never a transform, and a width or height is bounded. |
| `SvgTree.StyleDeclarationMeans` | `zero_sudo/svg_sanitizer.py:386-400` | A kept declaration is a listed property with a value that its validator returns unchanged and that is not bad. |
| `SvgAttributes.CleanAttributeExactly` | `zero_sudo/svg_sanitizer.py:404-422` | An attribute is cleaned to a name and a value if and only if its own name is that name in any case, the name is listed, and its validator gives the value, which is not bad. |
| `SvgAttributes.KeepAttributeExactly` | `zero_sudo/svg_sanitizer.py:454-475` | An attribute is kept, under a name and with a value, if and only if it is so cleaned and the element does not refuse it: so what must be kept is kept. Only the width and height of an `svg` are stripped. |
| `SvgAttributes.DeclarationSpelled` | `zero_sudo/svg_sanitizer.py:386-400` | A declaration of a listed property is kept with the value its validator gives, whatever the case of its name and the spaces around its parts, unless that value is bad. |
| `SvgAttributes.StyleInOrder` | `zero_sudo/svg_sanitizer.py:383-401` | A style that is not refused as a whole is cleaned to its kept declarations, in their order, and to none if there are none. |
| `SvgAttributes.TablesFull` | `zero_sudo/svg_sanitizer.py:256-297` | The concrete tables meet what these rows assume besides soundness. |
| `SvgValidators.ViewBoxSound` | `zero_sudo/svg_sanitizer.py:208-216` | `_viewbox` returns stripped text, no longer than its input, that it returns unchanged; numbers joined by single spaces are split into the same numbers. |
| `SvgValidators.ViewBoxSpelled` | `zero_sudo/svg_sanitizer.py:208-216` | Four numbers with any spaces and commas between them, and any spaces around them, are given with single spaces, in order, up to 240 characters. |
| `SvgValidators.CheckRegexSound` | `zero_sudo/svg_sanitizer.py:176-183` | So does the validator of any pattern. |
| `SvgValidators.CheckEnumSound` | `zero_sudo/svg_sanitizer.py:161-168` | So does the validator of any list of keywords. |
| `SvgPolicy.TablesSound` | `zero_sudo/svg_sanitizer.py:256-297` | Tables of concrete validators meet what the theorems below assume of a policy. |
| `SvgIdempotence.RebuildIdempotent` | `zero_sudo/svg_sanitizer.py:445-514` | If a block is built, building its result from the same budget gives the same tree (tags, attributes in order, text, tails) for the same elements and no more bytes, own and total. |
| `SvgIdempotence.BuildClean` | `zero_sudo/svg_sanitizer.py:445-514` | A built block holds only canonical allowlisted elements, attributes that pass their check unchanged and no name twice, character data only in text elements, and no deeper nesting than the cap; the budget was charged exactly its elements and at least its bytes, within the caps. |
| `SvgIdempotence.BuildHeight` | `zero_sudo/svg_sanitizer.py:445-496` | A block is never built deeper than its source, and never deeper than the cap. |
| `SvgIdempotence.BuildAgain` | `zero_sudo/svg_sanitizer.py:445-496` | A clean tree is rebuilt as it is, for exactly its own elements and bytes, if and only if they fit what is left of the budget. |
| `SvgIdempotence.AddTailClean` | `zero_sudo/svg_sanitizer.py:479-504` | Merging the tail of a dropped child into the text before it loses no byte, and layout text stays layout text. In which order, `AddTailStream` says. |
| `SvgMeaning.AddTailStream` | `zero_sudo/svg_sanitizer.py:479-504` | The tail of a dropped child comes right behind all that was read before it; outside text elements, spaces that meet are one layout newline. |
| `SvgMeaning.BuildExactly` | `zero_sudo/svg_sanitizer.py:445-514` | For every source, block depth and budget: a kept element is built if and only if its reach fits the depth, and its elements and bytes, computed from the source alone, fit what is left; it is charged exactly these. Read from start to end, the result is the source: its attributes under their stored names in order with their last values, its text and its children's tails in document order without control characters, each child's kept content in its place, nothing for a dropped one. An element that is not kept is dropped for nothing. |
| `SvgMeaning.ChildrenExactly` | `zero_sudo/svg_sanitizer.py:476-496` | The same for the children of an element, after any that were read before. |
| `SvgMeaning.BuildAttrsExactly` | `zero_sudo/svg_sanitizer.py:454-475` | The attribute loop fits exactly if the costs of all kept attributes do, overwritten ones included, and leaves their names in the order of first use with the last value of each. |
| `SvgMeaning.CleanTextStream` | `zero_sudo/svg_sanitizer.py:507-514` | What text is given: without its control characters in a text element, and one layout newline for space elsewhere. |
| `SvgMeaning.SanitizeExactly` | `zero_sudo/svg_sanitizer.py:517-541` | `sanitize_svg_element` returns a block if and only if it is an `svg`, not one too many, not too deep, and its elements and bytes fit its own caps and what is left of the totals; then it charges exactly these, and the block is its source without what is not kept, with the namespace set. |
| `SvgIdempotence.CanonicalAgain` | `zero_sudo/svg_sanitizer.py:73-80` | The canonical spelling of an element, camel case included, names the same element again. |
| `SvgBuild.Budget.Element` | `zero_sudo/svg_sanitizer.py:368-371` | The element counter of a budget. |
| `SvgBuild.Budget.SpendBytes` | `zero_sudo/svg_sanitizer.py:373-380` | A charge goes to the block and, if that is within its cap, to the totals of the call. |
| `SvgBuild.BuildElement` | `zero_sudo/svg_sanitizer.py:445-496` | `_build` with its mutable budgets computes the tree and the spent budgets of the function that `BuildExactly` and `RebuildIdempotent` are about, rejections included. |
| `SvgBuild.BuildAttributes` | `zero_sudo/svg_sanitizer.py:454-475` | The attribute loop of `_build`. |
| `SvgBuild.SanitizeSvgElement` | `zero_sudo/svg_sanitizer.py:517-541` | `sanitize_svg_element` with totals, both counters included. |
| `SvgBlocks.SanitizeIdempotent` | `zero_sudo/svg_sanitizer.py:517-541` | `sanitize_svg_element` returns its own result unchanged if and only if the block count, and the bytes of the result with its namespace attribute, fit what is left of the caps. |
| `SvgBlocks.SizeCapWitness` | `zero_sudo/svg_sanitizer.py:517-541` | A block of exactly the size cap is kept, but its result, 31 bytes longer with the namespace, is refused. |
| `SvgBlocks.SanitizedClean` | `zero_sudo/svg_sanitizer.py:517-541` | A returned block is clean, is an `svg`, carries the namespace, and charged the totals for at least its own bytes without it. |
| `SvgBlocks.SanitizeAllWithin` | `zero_sudo/svg_sanitizer.py:350-380` | Over any blocks of one call, whatever is rejected in between, those kept are at most what the caps leave, in number and in charged bytes. |
| `SvgBlocks.CallWithinCaps` | `zero_sudo/svg_sanitizer.py:350-380` | So one call keeps at most 1000 blocks, which charged at most 1 MiB. |
| `SvgCaps.DetachIsSanitizeAll` | `zero_sudo/svg_sanitizer.py:544-585` | Detaching sanitizes exactly the outermost `svg` elements, in document order, against the same totals. |
| `SvgCaps.DocumentWithinCaps` | `zero_sudo/svg_sanitizer.py:350-380` | So the blocks of any document stay within the caps of one call. |
| `SvgTails.AnyOrder` | `zero_sudo/svg_sanitizer.py:616-640` | Taking any set of children out one at a time, in any order, gives what taking them all out at once gives. |
| `SvgTails.RemoveAllKeeps` | `zero_sudo/svg_sanitizer.py:616-640` | Exactly the other children stay, in order, and the concatenated text is what it was. |
| `SvgTails.RemoveKeepingTails` | `zero_sudo/svg_sanitizer.py:616-632` | The single pass with its list of pieces, on mutable elements, is the removal of all at once. |
| `SvgTails.DropKeepingTail` | `zero_sudo/svg_sanitizer.py:688-699` | The simple form, on mutable elements, is the removal of one. |
| `SvgTails.StoreText` | `zero_sudo/svg_sanitizer.py:635-640` | The joined pieces go to the parent's text or to the tail of the holder. |
| `SvgDocument.MergeIsRemoveAll` | `zero_sudo/svg_sanitizer.py:611-632` | The removal on whole trees leaves the same texts as the removal on elements. |
| `SvgDocument.NoPlaceholderRemains` | `zero_sudo/svg_sanitizer.py:597-613` | For any cleaner, no placeholder remains below the root of the reattached document. |
| `SvgDocument.DetachClean` | `zero_sudo/svg_sanitizer.py:553-585` | Everything that is stashed is a clean `svg`. |
| `SvgReattach.ReattachExactly` | `zero_sudo/svg_sanitizer.py:588-613` | For any cleaner, the reattached document is the cleaned one with each placeholder filled or removed: filled if and only if its block was validated, no blocked context is above it, and it is the first with its number. |
| `SvgReattach.PutBackOnce` | `zero_sudo/svg_sanitizer.py:597-613` | No block is put back twice. |
| `SvgFaithful.FaithfulToIdentity` | `zero_sudo/svg_sanitizer.py:544-651` | Around a cleaner that changes nothing, every document becomes the original with each outermost `svg` replaced by its rebuild, or removed with its tail text kept when it was rejected or lies under a blocked context. |
| `SvgFaithful.OuterTextKept` | `zero_sudo/svg_sanitizer.py:544-651` | The text outside the blocks is never changed by detaching, nor by reattaching after any cleaner. |
| `SvgProtocol.DetachTree` | `zero_sudo/svg_sanitizer.py:553-585` | The walk that numbers, validates and stashes, with mutable stash and totals. |
| `SvgProtocol.ReattachTree` | `zero_sudo/svg_sanitizer.py:597-613` | The walk that pops the stash and swaps the blocks back. |
| `SvgProtocol.StashBox.Pop` | `zero_sudo/svg_sanitizer.py:606` | `stash.pop(index, None)`. |
| `SvgProtocol.CleanDocumentSteps` | `zero_sudo/svg_sanitizer.py:643-651` | `clean_document` computes the document of the function that `CleanerDecides`, `DetachRestores`, `ReattachExactly` and `FaithfulToIdentity` are about. |
| `SvgStreams.CleanerDecides` | `zero_sudo/svg_sanitizer.py:643-651` | For every cleaner: a document without `svg` becomes what the cleaner makes of it. With one, the cleaner is given the detached document; where its result holds no placeholder that is the result; in general the result, read from start to end, is the cleaner's with each placeholder replaced by its block or by nothing. |
| `SvgStreams.DetachRestores` | `zero_sudo/svg_sanitizer.py:544-585` | What the cleaner is given is the document without its outermost blocks and nothing else: the placeholders are numbered in order, and the blocks put where they are give the document back. |
| `SvgStreams.ReattachStream` | `zero_sudo/svg_sanitizer.py:597-613` | Reattaching to any cleaned document touches no element, attribute or character outside the placeholders; which of them are filled is computed by one walk over the document. |
| `SvgXml.XmlOnlyClean` | `zero_sudo/svg_sanitizer.py:702-742` | After `sanitize_xml_svgs`, every outermost element that a browser could read as an `svg`, in any namespace or prefix, is a clean rebuilt block, unless it is the root: then the call fails exactly if the root was validated, and otherwise leaves it in place. |
| `SvgWitnesses.RootWitness` | `zero_sudo/svg_sanitizer.py:739-741` | A valid drawing as the root fails the call; one that is too large as the root comes back as it was. |
| `SvgXml.XmlTextKept` | `zero_sudo/svg_sanitizer.py:702-742` | The text around the blocks is what it was, dropped blocks included; elements and attributes are the subject of `XmlStream`. |
| `SvgStreams.XmlStream` | `zero_sudo/svg_sanitizer.py:717-742` | Read from start to end, the result of `sanitize_xml_svgs` is the tree with each outermost block replaced by its rebuild or by nothing: every other element keeps its tag, its attributes, its place and its nesting, and all characters stay in order. |
| `SvgStreams.XmlUnchanged` | `zero_sudo/svg_sanitizer.py:702-742` | A tree without anything like an `svg` comes back as it is, and is not hostile. |
| `SvgXml.RejectedHostility` | `zero_sudo/svg_sanitizer.py:732-738` | A rejected block counts as hostile exactly unless it has the bare name `svg` and the blocks are not too many; so every namespaced `svg` that is rejected, for its size too, counts, because its namespace holds a colon. |
| `SvgWitnesses.OversizeWitness` | `zero_sudo/svg_sanitizer.py:726-738` | A drawing in the SVG namespace that is only too large is dropped and reported as hostile; the same drawing without the namespace is dropped and not reported. |
| `SvgCaps.HostileExactly` | `zero_sudo/svg_sanitizer.py:702-742` | The pass reports hostility if and only if one of the outermost blocks looks hostile or is rejected in a way that counts. |
| `SvgCaps.XmlWithinCaps` | `zero_sudo/svg_sanitizer.py:702-742` | Unless the root is itself such an element, the outermost blocks of the result are exactly the rebuilds of those outermost blocks that were kept, in order; so they are at most 1000, and hold at most 1 MiB besides 31 bytes of namespace each. A root that is one and with which the call returns was rejected, and is left as it was. |
| `Cache.Worker.Poll` | `distributed_redis_cache/redis_cache.py:56-67` | The poll clears the memory and remembers the counter exactly when one was read that differs from the last. |
| `Cache.Worker.Call` | `distributed_redis_cache/redis_cache.py:286-340` | A cached call answers from memory, then from Redis, then by computing, and stores accordingly. |
| `Cache.Worker.Invalidate` | `distributed_redis_cache/redis_cache.py:346-395` | Invalidation removes exactly the keys of the model, in memory and, unless local only, in Redis. |
| `Cache.Redis.Increment` | `distributed_redis_cache/daemons/cache_manager.py:136-139` | The daemon's increment of the counter. |
| `CacheSteps.CommitInvalidates` | `distributed_redis_cache/redis_cache.py:346-427` | A commit removes the cached results of its models, and no others, from Redis and from the memory of its own worker, touches no other worker, and its worker answers for these models from the new data at once. |
| `CacheSteps.PollTogether` | `distributed_redis_cache/redis_cache.py:56-67` | A poll in one piece clears the memory and remembers the counter exactly if one is there that was not the last; otherwise nothing is lost. |
| `CacheSteps.CallStores` | `distributed_redis_cache/redis_cache.py:286-340` | A call in one piece leaves its key in memory, with what Redis held for it; it writes to Redis exactly if it may and Redis held nothing, and then just this entry. |
| `CacheRuns.Coherence` | `distributed_redis_cache/redis_cache.py:56-67` | In a run whose caches are coherent throughout, at each of its points: with nothing pending and the counter seen, whatever a worker holds is right now. |
| `CacheRuns.CoherentExactly` | `distributed_redis_cache/redis_cache.py:286-427` | In every run (calls, commits, notifications, two-step polls by any threads, evictions, restarts), after every prefix Redis holds only current answers and whatever a worker holds was right at some time since the latest commit its polls were told of, if and only if every store is in time: what it puts in memory was right since then, and what it puts in Redis is right now. |
| `CacheRuns.ScheduledCoherent` | `distributed_redis_cache/redis_cache.py:286-427` | The caches are coherent and announced throughout every run with this schedule, whatever is computed: between the reading and the storing of a call no commit names the model of a key that is stored for all workers, and its worker applies no reading of the counter that it made after a later commit. |
| `CacheRuns.AtomicCoherent` | `distributed_redis_cache/redis_cache.py:286-340` | So are they in every run in which each store directly follows the reading of its call. |
| `CacheRuns.AtomicAnswers` | `distributed_redis_cache/README.md:83` | And then, with nothing pending and the counter seen, every call (memory, then Redis, then computed) returns the current answer. |
| `CacheSchedules.ScheduleExactly` | `distributed_redis_cache/redis_cache.py:286-427` | A schedule is coherent throughout, whatever the answers are and however the commits change those of the models they name, if and only if at every store no commit that names its model lies between the reading and what the polls of its worker were told of, and, for a store in Redis, between the reading and now. |
| `CacheRuns.StaleIsAnnounced` | `distributed_redis_cache/redis_cache.py:346-427` | In those runs, at every point, a wrong entry in the memory of a worker means that a notification is pending or the counter differs from the one it saw. |
| `CacheRuns.StepKeeps` | `distributed_redis_cache/redis_cache.py:286-427` | Every step whose store is in time keeps the invariant behind it. |
| `CacheRuns.FloorGrows` | `distributed_redis_cache/redis_cache.py:56-67` | What a worker was told by a poll is never taken back, not even by a slower thread that applies an older reading. |
| `CacheRuns.CallTogether` | `distributed_redis_cache/redis_cache.py:286-340` | A call whose reading and storing follow each other is always in time, and stores the current answer. |
| `CacheRuns.LateStoreStays` | `distributed_redis_cache/README.md:83` | Without that the documented guarantee fails: an answer computed before a commit and stored after the commit was announced and polled stays wrong in memory and in Redis, with nothing pending and the counter seen. |
| `WindowCounter.Server.Transaction` | `distributed_redis_cache/redis_pool.py:52-56` | The one transaction: the key is created with its expiry or not at all. |
| `WindowCounter.Server.ExpiringCounter` | `distributed_redis_cache/redis_pool.py:37-60` | `expiring_counter` with every way a call can fail. |
| `WindowCounter.SuccessExpires` | `distributed_redis_cache/redis_pool.py:37-60` | A call that returns leaves a live key with an expiry; it sets the expiry only where there was none. |
| `WindowCounter.WindowSums` | `distributed_redis_cache/redis_pool.py:37-60` | Within a window that the helper started, every returned count is the sum of everything added since the first hit, and nothing moves the end of the window. |
| `WindowCounter.WindowEnds` | `distributed_redis_cache/redis_pool.py:37-60` | When the window is over, the next call starts a new one. |
| `WindowCounter.NeverForEver` | `distributed_redis_cache/redis_pool.py:37-60` | Where only the helper counts, no failure at any point leaves a key without an expiry. |
| `WindowCounter.HealsInTheEnd` | `distributed_redis_cache/redis_pool.py:57-59` | A key without an expiry keeps its count while its repair fails, and the next call that returns gives it a window. |
| `BackupCommands.BuildCommand` | `backup_management/daemon/main.py:612-653` | The command, extended step by step, is that of the specification, errors included. |
| `BackupCommands.ValidateRequest` | `backup_management/daemon/pgbackrest_sidecar.py:70-105` | `_validate_request_cmd` with its flag accepts exactly the backup and info commands with a well-formed stanza whose every argument is on the list. |
| `BackupCommands.PassesIsAllowed` | `backup_management/daemon/pgbackrest_sidecar.py:84-103` | The order of the branches decides nothing: an argument passes them exactly if it is on the list. |
| `BackupCommands.BackupAgrees` | `backup_management/daemon/main.py:612-624` | A backup command that the worker builds is accepted by the sidecar if and only if its stanza is well formed, the storage fields are where they are used, and no more than 99999 backups are kept outside repository 1. |
| `BackupCommands.InfoAgrees` | `backup_management/daemon/main.py:644-653` | An info command is accepted if and only if its stanza and, where used, its storage fields are well formed. |
| `BackupCommands.RepoChoice` | `backup_management/daemon/main.py:267-286` | A command is built if and only if the repository number can be read and lies between 0 and 256; it names a repository with `--repo=` exactly if the number is positive, and then that one and no other; and it describes repository 1 by the storage fields exactly if the number is 0 and the storage is remote. |
| `BackupCommands.RetentionAllowed` | `backup_management/daemon/pgbackrest_sidecar.py:46-65` | A retention argument passes exactly for repository 1 or below 100000. |
| `BackupArguments.CommandSettings` | `backup_management/daemon/main.py:225-286` | A command that is built is for the stanza of the job; it describes repository 1 exactly where the worker has to, and then gives its type (`s3`), bucket, host, region and path once each: bucket, host and region those of the configuration (the host if there is one, the region with its default), the path that of the stanza. |
| `BackupArguments.RetentionExactly` | `backup_management/daemon/main.py:613-624` | How many backups are kept is told exactly if the configuration says so, as the last option, and of the repository the backup goes to; its other options behind the first four are those of an inquiry. |
| `BackupArguments.HostSpelled` | `backup_management/daemon/main.py:109-135` | An address with or without a scheme, and with any number of slashes behind it, gives its host. |
| `BackupArguments.AcceptedHarmless` | `backup_management/daemon/pgbackrest_sidecar.py:46-105` | Whatever is asked, the sidecar accepts only `pgbackrest backup` or `pgbackrest info` with options that begin with two dashes and are made of letters, digits and six marks. |
| `BackupArguments.StanzaExactly` | `backup_management/daemon/pgbackrest_sidecar.py:46-65` | A stanza passes exactly if it is not empty and made of ASCII letters, digits and underscores. |
| `BackupArguments.SettingExactly` | `backup_management/daemon/pgbackrest_sidecar.py:46-65` | A storage setting passes exactly if it is not empty and made of these and four marks more. |
| `BackupJob.OneReply` | `backup_management/daemon/main.py:546-996` | Whatever fails, exactly one of acknowledgement and negative acknowledgement is sent. |
| `BackupJob.NackExactly` | `backup_management/daemon/main.py:937-996` | The message is put back if and only if the attempt failed, not after the acknowledgement of a job for the sidecar, the failure could not be reported, and one of the two failures was that Odoo was unavailable. |
| `BackupJob.NackMeansUnavailable` | `backup_management/daemon/main.py:979-996` | A message is put back only after some call found Odoo unavailable. |
| `BackupJob.HandedOverOnce` | `backup_management/daemon/main.py:778-798` | A job that was handed to the sidecar was acknowledged before and is never put back. |
| `BackupJob.UnrecordedExactly` | `backup_management/daemon/main.py:546-996` | A job is acknowledged without a final state on record if and only if it failed before one was recorded, the failure could not be recorded either, and it had been acknowledged for the sidecar before, or neither failure was that Odoo was unavailable. |
| `BackupJob.LostToOutage` | `backup_management/daemon/main.py:797-798` | A job is lost to an outage (acknowledged, nothing handed over, nothing recorded, because Odoo was unavailable) if and only if it was for the sidecar, its request was not published, and Odoo, there at the start, was not there to be told. |
| `BackupJob.OutageWitness` | `backup_management/daemon/main.py:989-994` | Such a run, event by event: the job is noted, acknowledged, and its failure is refused by an Odoo that is away; no negative acknowledgement follows, against the comment there. |
| `BackupJob.DoneExactly` | `backup_management/daemon/main.py:546-996` | Odoo is told that a job is done if and only if the job was noted, its command was prepared, started and ended with code 0, every update of its log on the way was taken, and so was the note that it is done. |
| `BackupReports.WholeRun` | `backup_management/daemon/main.py:546-996` | The attempt at a job ends well if and only if the job is noted, its command goes well and all calls by its code and engine go through; then the whole run is, event by event: the note, the command, the final state, the log, the calls of the engine or the report, and the acknowledgement where it was not sent before. |
| `BackupReports.ReportExactly` | `backup_management/daemon/main.py:855-996` | `report_backup_failure` goes through if and only if the attempt ended well and its command ended with another code than 0 or its listing was lost; or it failed, the job has a configuration, and the three calls of the handler went through. |
| `BackupReports.FollowUpsExactly` | `backup_management/daemon/main.py:879-921` | Snapshots are synchronized, processed, or a drill time is written, if and only if the job is done, all calls of its attempt went through, and its engine is one of those each belongs to. |
| `BackupJob.FailedUpdateFailsJob` | `backup_management/daemon/main.py:838-850` | One update of the log that fails, in whatever way, keeps the job from counting as done whatever the command returns: the job is put back or recorded as failed, unless neither the update nor its report found Odoo unavailable and the report failed as well. `_json2_call` (lines 538-539) leaves no error that the handler around the update catches. |
| `BackupJob.Worker.SendAck` | `backup_management/daemon/main.py:549-554` | `ack()` sends at most once. |
| `BackupJob.Worker.SendNack` | `backup_management/daemon/main.py:556-562` | `requeue()` never sends after an answer. |
| `BackupJob.Worker.RunCommand` | `backup_management/daemon/main.py:778-853` | Running a command, acknowledged before the long wait when it is delegated; a request that cannot be published is no hand-over. |
| `BackupJob.Worker.CloseJob` | `backup_management/daemon/main.py:855-932` | What follows a command, with its own handler around the reading of a snapshot listing: a listing that cannot be read, and an answer to it that is no text, are reported. Which calls these are, `ReportExactly` and `FollowUpsExactly` say. |
| `BackupJob.Worker.ExecuteJob` | `backup_management/daemon/main.py:546-996` | The method with its state emits exactly the events of the function that `WholeRun`, `ReportExactly`, `OneReply`, `NackExactly` and `DoneExactly` are about. |
| `Spool.StepKeeps` | `backup_management/daemon/main.py:377-439` | Every step of the worker and of the sidecar keeps the invariant of the spool directory. |
| `SpoolRuns.NeverPartial` | `backup_management/daemon/pgbackrest_sidecar.py:130-141` | In every interleaving a published request is complete and that of its job; so the sidecar never reads part of one, and finds none only for a job the worker is done with. |
| `SpoolRuns.OwnResult` | `backup_management/daemon/main.py:396-426` | Any result the worker takes or returns was produced for its own request, even where a result of the same name lay there before. |
| `SpoolRuns.NeverTriggersAgain` | `backup_management/daemon/pgbackrest_sidecar.py:165-196` | A job that the sidecar is done with, however that went, leaves no request, never triggers it again and is never taken up again. |
| `SpoolRuns.TriggerEnds` | `backup_management/daemon/pgbackrest_sidecar.py:192-196` | In every run the sidecar is started, and takes up a request, at most as often as requests were published, also where a start finds the request that caused it gone. |
| `SpoolRuns.SuccessLost` | `backup_management/daemon/main.py:416-426` | A successful job can be reported as failed: the sidecar removes the request between the worker's look and its removal, and the exception takes the result with it. |
| `SpoolRuns.BreaksExactly` | `backup_management/daemon/main.py:423-438` | In every run that reaches it, that removal fails if and only if the sidecar finished with the job since the look; otherwise the worker ends with its own result, or gives up where it had run out of time. |
| `SpoolRuns.SeenUnserved` | `backup_management/daemon/main.py:423-424` | In every run, when the worker sees the request the sidecar is not done with the job. |
| `SpoolExchange.Exchange` | `backup_management/daemon/main.py:377-439` | Where nothing fails and nothing comes between, a job ends with the answer to its own request, from any directory without other requests, and none of its files is left, not even older ones. |
| `SpoolExchange.WriteFails` | `backup_management/daemon/main.py:393-410` | A request that cannot be written leaves nothing behind. |
| `SpoolExchange.PublishFails` | `backup_management/daemon/main.py:393-413` | One that is written and cannot be renamed leaves exactly its temporary file, and the job fails. |
| `SpoolExchange.TakenBack` | `backup_management/daemon/main.py:393-438` | A request that is not answered in time is taken back, and nothing of it is left. |
| `SpoolDirectory.Directory.ProcessOne` | `backup_management/daemon/pgbackrest_sidecar.py:130-189` | `_process_one` with each of its failures. |
| `SpoolDirectory.Directory.ProcessAll` | `backup_management/daemon/pgbackrest_sidecar.py:192-196` | After `main`, none of the requests it found is left, and no other job was touched. |
| `SpoolDirectory.ProcessedOnly` | `backup_management/daemon/pgbackrest_sidecar.py:165-189` | Whatever fails, the request is out of sight, is kept aside unless its result is there, and no other job is touched. |
| `SpoolDirectory.StepsAreProcessed` | `backup_management/daemon/pgbackrest_sidecar.py:130-189` | Without interference the steps of the protocol do what `_process_one` does. |
| `Numbers.ReadPrinted` | `form_shield/tokens.py:98-100` | A printed number is canonical and reads back as itself. |
| `Numbers.PrintRead` | `form_shield/tokens.py:181-183` | A canonical numeral is what its number is printed as. |
| `Tokens.ChallengeRoundTrip` | `form_shield/tokens.py:93-156` | For every key, times, difficulty and kind without a dot, `parse_challenge` of `make_challenge` returns what went in. |
| `Tokens.DecimalsRead` | `form_shield/tokens.py:98-152` | Reading canonical decimals with a sign is one way of reading that meets what the round trip relies on. |
| `Tokens.AcceptedIsSigned` | `form_shield/tokens.py:136-156` | A token is accepted only if it is its seven fields and the signature of exactly those. |
| `Tokens.SignatureDecides` | `form_shield/tokens.py:136-156` | Two accepted tokens with the same seven fields are the same token. |
| `TokenChecks.FieldsParsed` | `form_shield/tokens.py:136-156` | For all seven fields and signatures: which of the two errors `parse_challenge` raises, in its order, or the fields, each in its place. |
| `TokenChecks.ChallengeFormat` | `form_shield/tokens.py:93-108` | A challenge is its fields in their order, dots between them, and 40 digits of the signature of exactly these. |
| `TokenChecks.ResponseExactly` | `form_shield/tokens.py:125-131` | An answer gives a challenge and a solution if and only if, stripped, it is short enough and the challenge stands, not empty, before its first separator; the solution is the stripped rest. |
| `Tokens.ResponseRoundTrip` | `form_shield/tokens.py:125-131` | An answer is split into its challenge and its stripped solution if and only if it has at most 400 characters. |
| `Tokens.ExchangeRoundTrip` | `form_shield/tokens.py:93-156` | A whole exchange with numbers of at most twelve digits comes back, within the limit of an answer. |
| `ProofOfWork.ZeroBitsBound` | `form_shield/tokens.py:161-165` | `leading_zero_bits` reaches n exactly if the digest, as a number, is below 2 to the remaining bits. |
| `ProofOfWork.ZeroBitsAreBits` | `form_shield/tokens.py:161-165` | It counts what the bits of the digest, read byte by byte, show. |
| `ProofOfWork.PowValidExactly` | `form_shield/tokens.py:177-185` | `pow_valid` accepts exactly the canonical decimals of solving counters below 10 to the 12. |
| `TokenChecks.PowTextDecides` | `form_shield/tokens.py:170-174` | The hashed text decides challenge, form and counter: work for one is work for no other. |
| `ProofOfWork.SolvePow` | `form_shield/tokens.py:190-195` | `solve_pow` returns the least solving counter from its start, whenever there is one. |
| `ProofOfWork.SolverAccepted` | `form_shield/tokens.py:177-195` | Its answer is accepted exactly if it has at most twelve digits. |
| `Quota.DynamicMaxSize` | `caching/models/caching_mixin.py:105-128` | The published limit is the best one: what it admits fits the quota, and any larger limit admits more than the quota, ties included; where everything fits it admits every file; without files or quota it is the fixed one. |
| `Quota.PublishedLimit` | `caching/models/caching_mixin.py:84-128` | The same for the files in the order in which they were found. |
| `Quota.BestForAll` | `caching/models/caching_mixin.py:84` | Sorting changes nothing about which limit is best. |
| `Quota.LimitMeans` | `caching/models/caching_mixin.py:101-128` | In bytes: ten megabytes of the quota stay free, what the limit admits fits the rest, and a larger limit would admit more than that, or nothing more. |
| `BinaryPool.Pool.CountReferences` | `binary_downloader/models/binary_utils.py:419-437` | The counter holds, for each key asked for, the number of manifests and versions that map to it. |
| `BinaryPool.Pool.RemoveFiles` | `binary_downloader/models/binary_manifest.py:200-204` | A file goes exactly if the references to it are no more than those of the records to be deleted. |
| `BinaryPool.Pool.UnlinkVersions` | `binary_downloader/models/binary_version.py:216-228` | The state after deleting versions: exactly the files go that a deleted version maps to and no record that stays does. |
| `BinaryPool.Pool.UnlinkManifests` | `binary_downloader/models/binary_manifest.py:186-205` | The state after deleting manifests, whose versions the database deletes with them (binary_version.py, line 24). |
| `BinaryPool.ManifestsExactly` | `binary_downloader/models/binary_manifest.py:186-205` | Deleting manifests removes exactly the files that a deleted manifest maps to, no record that stays does, and no version that goes with the manifests does. |
| `BinaryPool.RecordsExactly` | `binary_downloader/models/binary_manifest.py:186-205` | Which records a deletion removes: those with the ids, and the versions of deleted manifests. |
| `BinaryPool.UnnamedStays` | `binary_downloader/models/binary_version.py:216-228` | A record without a name or a checksum has no file, and no deletion removes one for it. |
| `BinaryPool.NeededStays` | `binary_downloader/models/binary_manifest.py:186-205` | Over any deletions, a file that a record still needs at the end is never removed. |
| `BinaryPool.TidyExactly` | `binary_downloader/models/binary_version.py:20-26` | A pool in which every file has a record stays so when versions are deleted; when manifests are, if and only if each file of a version that goes with them is needed by a record that stays. |
| `BinaryPool.VersionFileLeft` | `binary_downloader/models/binary_manifest.py:186-205` | Deleting a manifest can leave the file of its version behind, with no record that maps to it. |

## Left out

- FaithfulToIdentity: for documents whose comments spell no marker of the current nonce; other documents are covered by ReattachExactly only.
- RebuildIdempotent: for sound validators; `_paint`, `_url_ref`, `_safe_id`, `_small_margin` and the single attribute patterns are not modelled, because they would only add easy members.
- Coherence: of runs whose caches are coherent throughout, which CoherentExactly and the schedules characterize; the code does nothing to make its stores timely.
- HandedOverOnce: about the answers to the broker; what a redelivery by the broker after a lost connection does is not modelled.
- SVG trees are values outside `SvgTails`; replacing an element in place and its parent pointers are not modelled, nor are processing instructions beyond their being no elements.
- Comments that are siblings of the root of a document, which have no parent and are not touched.
- The markers themselves: that a text spells marker number n of the current nonce is part of the tree.
- `_looks_hostile` is an arbitrary predicate; `install`, which patches the cleaner, is not modelled.
- `sanitize_svg_element` without totals, which differs only in the missing count.
- Lone surrogates in Python texts: Dafny characters are code points without them.
- Lower-casing outside ASCII, except for the two characters whose lower case holds an ASCII letter.
- The key of a cached call (`_get_hash`, tenant suffixes), signing and pickling; a payload that fails them is a miss that is not stored in Redis.
- Redis errors, a daemon that is down, lost notifications and restarts of Redis that lose the counter; cached connection settings; the bound of 8192 entries, whose evictions are steps at any time.
- `should_poll_for_invalidation` and the registry that is still loading.
- The expiry of a counter in whole seconds as Redis reports it; the model compares times.
- `_json2_call` beyond how it fails, with its reload of a rotated key; the log text and its pieces; secrets in payloads.
- The kopia, restore and drill commands of `execute_job`; they are one step that may fail.
- The environment of a request and its check, and the running of pgbackrest.
- `_run_pgbackrest_via_sidecar` as one method: it is the worker's steps of `Spool`.
- ip tags and the question for visitors without JavaScript.
- The scan of directories behind `get_fs_stats`, and the modification times.
- Downloads into the pool, failing removals of files, path checks, and the order of Odoo's own deletions.
- Odoo models, controllers, settings, views, hooks and record rules; slugs, host names, parking pages, proxy headers, pagers, codecs and key rotation.
