# Operations toolbox: a verified model

A Dafny model of the programs in this repository that hold an algorithm or a state machine, and
proofs of what they compute and what they keep. Databases, HTTP services, object stores and clocks
are parameters: a server's answers are functions, a partition's rows are data, and one clock reading
serves a run. `dafny verify dfyconfig.toml` checks everything.

| file | models |
|---|---|
| `Calculator.dfy`, `CalculatorMeaning.dfy` | the two-stack infix calculator: scan, reduce, drain, bounded stacks |
| `Lineage.dfy`, `LineageOrder.dfy` | the recursive walk over a cyclic graph of SQL servers with a shared dictionary and connection pool |
| `Governance.dfy`, `GovernanceTheorems.dfy` | partition clean-up, pre-creation and migration |
| `Josephus.dfy` | the elimination game on a circular list |
| `HeroRanking.dfy`, `DoubleLink.dfy`, `SingleLink.dfy` | sorted rankings as doubly and singly linked lists |
| `Credentials.dfy`, `CredentialMapping.dfy` | masking connector settings and resolving the masks |
| `Reconcile.dfy` | reconciling CDC tables and Kafka topics |
| `AlertProxy.dfy`, `AlertInterleaving.dfy` | one start time per incident, and round robin, under any interleaving |
| `QuestionParser.dfy`, `QuestionMeaning.dfy` | the one-pass exam parser |
| `DiffParquet.dfy` | counting rows per hour over a cached download |
| `Arrangements.dfy` | permutations and the 24-point search |
| `Options.dfy`, `PythonText.dfy`, `Modulo.dfy` | shared helpers: optional values, Python's `strip`, remainders |

Where a program changes objects, fields or arrays step by step, so does the model: each such method
is proved against a function of the old state, and the theorems are lemmas about that function.

## What the proofs found

* **Calculator.** For every expression the answer is the left-associative value with `*` and `/`
  binding tighter, except that `+` and `*` are called with the right operand first; for commutative
  operations this is the plain value. Every string is the text of one expression whose numbers may be absent: an operator takes the
  last two waiting numbers, and null for one that is not there, so `-5` is null minus 5 but `1+2*` is
  null plus (1*2). Two operator slots and three number slots suffice for every string, and a message
  is printed exactly when the string is not an expression.
* **Lineage.** A distributor is marked visited when it is connected, but not expanded, so what lies
  behind it can be missed (`MissesBehindDistributor`). A run is complete if whatever lies behind
  another server's distributor can be reached around it, and for dedicated distributors only then;
  otherwise the order of the rows decides (`RowOrderDecides`). When a distributor is unreachable, the
  error is recorded under the server that asked, which did connect (`ReportsAConnectedServer`).
* **Governance.** No row and no structure is ever lost, but a run that overshoots the horizon is
  undone by the next run at the same clock and redone by the one after (`GovernOscillates`). A table
  loses all its partitions exactly when they are empty and no default row falls into the ones to be
  created (`GovernLosesAllIff`); the empty list then raises in every later run and the tables behind
  it are no longer handled (`GovernAll`). The list ends within one interval of the horizon exactly
  when no partition with rows lies a whole interval past it.
* **Rankings.** Adding a taken number changes nothing, so add-then-delete is an undo exactly when the
  number was new. In the doubly linked list a hero appended at the end keeps its old `next`; the
  contract says exactly when the list stays well linked.
* **Masking.** A masked hostname resolves to itself exactly when no line after the last one naming it
  gives a hostname to a prefix of that name, so the order of two colliding lines decides
  (`ForeignPrefixBreaks`).
* **CDC tables.** A round converges exactly when what it has to enable are plain names of schema `dbo`
  and what it has to disable are plain; a table of another schema is enabled and disabled in turn for
  ever.
* **Alerts.** `int(i) % len(targets)` can be negative once the counter passes 2^63; only a single
  target is safe over the whole range of the counter.
* **Exam parser.** A question is filed under the category current when it is emitted, so the last
  question of a section belongs to the next one.
* **24 points.** The code as written subscripts a RECORD outside the block that skips errors, so
  PostgreSQL raises for every array of four elements or more; the search itself is right for the
  array element that was meant (`Find24` covers both).
* **Downloads.** The etags are saved only at the end. After a run cut short the cache is coherent
  exactly when every file that was replaced has the same content in both versions.

## Model

| member | source | states |
|---|---|---|
| Calculator.MyStack.Push | xampp/www/jisuan.php:215-226 | pushes on top; on a full stack of five the value is dropped and a message shown |
| Calculator.MyStack.Pop | xampp/www/jisuan.php:229-242 | takes the top off; on an empty stack yields nothing, changes nothing and shows a message |
| Calculator.MyStack.GetTop | xampp/www/jisuan.php:179-181 | the last value pushed and not popped, null when there is none |
| Calculator.MyStack.IsEmpty | xampp/www/jisuan.php:194-200 | true exactly when the stack holds nothing |
| Calculator.ReduceTop | xampp/www/jisuan.php:136-140 | two numbers and an operator are replaced by one result, with the messages of all three stack calls, as one step of the machine |
| Calculator.ReadOperator | xampp/www/jisuan.php:40-95 | reading an operator first reduces everything stacked that binds at least as tightly, then stacks it |
| Calculator.DrainStacks | xampp/www/jisuan.php:134-141 | the final loop reduces until no operator is left |
| Calculator.Evaluate | xampp/www/jisuan.php:14-144 | for every non-empty string the answer and the messages are those of the token machine run on the string's tokens |
| Calculator.LexMeaning | xampp/www/jisuan.php:98-116 | the tokens spell the string, and numbers are non-empty operator-free runs that are never adjacent |
| Calculator.LexUnique | xampp/www/jisuan.php:98-116 | such a token list is the only one for its string, so numbers are the maximal operator-free runs |
| CalculatorMeaning.LexPrint | xampp/www/jisuan.php:28-116 | scanning the text of an expression, with numbers possibly absent, yields the expression's own tokens |
| CalculatorMeaning.ExprText | xampp/www/jisuan.php:28-116 | an expression's tokens spell its text, and numbers are never adjacent |
| CalculatorMeaning.ExprAlternates | xampp/www/jisuan.php:28-116 | with all numbers present they alternate number, operator, number |
| CalculatorMeaning.ReadPrints | xampp/www/jisuan.php:21-128 | every string is the text of an expression with numbers possibly absent |
| CalculatorMeaning.ReadUnique | xampp/www/jisuan.php:21-128 | and of only one |
| CalculatorMeaning.TokensOfParse | xampp/www/jisuan.php:31-37 | every alternating token list is the token list of some expression of the two-level grammar |
| CalculatorMeaning.ParseOfTokens | xampp/www/jisuan.php:31-37 | and of only one: the grammar is unambiguous |
| CalculatorMeaning.ReduceOperates | xampp/www/jisuan.php:136-140 | one reduction applies the operator to the last two waiting numbers, the one pushed first on the left; null stands for each that is missing, with one message each |
| CalculatorMeaning.TermRuns | xampp/www/jisuan.php:47-67 | reading a product, with numbers possibly absent, leaves its tally above whatever was stacked, once the tight operators are reduced |
| CalculatorMeaning.ExprRuns | xampp/www/jisuan.php:47-67 | reading an expression leaves exactly its tally once everything is reduced |
| CalculatorMeaning.ExprTallyValue | xampp/www/jisuan.php:47-67 | with all numbers present the tally is the left-associative two-level value, without a message |
| CalculatorMeaning.EveryStringComputes | xampp/www/jisuan.php:21-144 | the answer and the messages for every string, well-formed or not: the tally of the one expression it is the text of |
| CalculatorMeaning.LeadingOperator | xampp/www/jisuan.php:134-176 | an operator in front of an expression has null for its left operand: - and + meet the first product, * and / the first number, with one message |
| CalculatorMeaning.TrailingOperator | xampp/www/jisuan.php:134-176 | a dangling operator takes the value on its left as its right operand; null ends up in front of the lowest operator, with one message |
| CalculatorMeaning.CalculatorComputes | xampp/www/jisuan.php:21-144 | the page's answer to the text of any expression is its left-associative two-level value, for any four operations |
| CalculatorMeaning.FlipHarmless | xampp/www/jisuan.php:161-169 | taking the operands of + and * in the other order changes no value when these operations commute |
| CalculatorMeaning.RunSafe | xampp/www/jisuan.php:152-226 | on every string the operator stack is strictly increasing in priority, so at most two operators and three numbers are stacked and nothing is dropped |
| CalculatorMeaning.AlwaysOneAnswer | xampp/www/jisuan.php:134-144 | on every non-empty string exactly one number is left, no operator, and no push was refused |
| CalculatorMeaning.QuietIffWellFormed | xampp/www/jisuan.php:215-242 | the run is free of messages if and only if the string is the text of an expression |
| Lineage.Traversal.Connect | mssql/replication/main.py:23-56 | connects exactly when some credential is accepted; a new connection enters the pool, a pooled one makes no login, and no server is logged into twice |
| Lineage.Traversal.Traverse | mssql/replication/main.py:291-364 | on any finite, possibly cyclic graph the recursion ends in the state of the recursive function Walk, with the server visited and the invariant of the whole recursion kept |
| Lineage.Traversal.Expand | mssql/replication/main.py:302-357 | when a server's frame ends, all it owed is done and the enclosing frames' invariant holds again |
| Lineage.Traversal.Distribute | mssql/replication/main.py:315-357 | the replication half, with its three exits: no distributor, distributor unreachable, distributor followed |
| Lineage.Traversal.Follow | mssql/replication/main.py:304-313 | the rows are followed in the order returned, and after the loop every target is visited and its lineage recorded |
| Lineage.Traversal.FollowRow | mssql/replication/main.py:308-313 | one row: lineage recorded, target visited, nothing forgotten |
| Lineage.ExpandKeeps | mssql/replication/main.py:300-300 | marking a connected server keeps the invariant with one more open frame |
| Lineage.FailedKeeps | mssql/replication/main.py:359-360 | recording a server that refuses keeps the invariant |
| Lineage.MarkDistributorKeeps | mssql/replication/main.py:320-324 | overwriting the distributor's entry with its connection keeps the invariant |
| Lineage.MarkFailedKeeps | mssql/replication/main.py:359-360 | overwriting the server's entry with its distributor's error closes its frame |
| Lineage.CloseFrame | mssql/replication/main.py:315-357 | a frame whose rows are all followed has its neighbours visited and its lineage in the graph |
| LineageReport.Report | mssql/replication/main.py:373-390 | a whole run ends in a state satisfying the invariant with no open frame; the report lists exactly the servers holding an error |
| LineageReport.VisitedReachable | mssql/replication/main.py:291-364 | every visited server is reachable from the root through servers that could be connected |
| LineageReport.VisitsAllIff | mssql/replication/main.py:291-364 | all reachable servers are visited if and only if no server that was marked but not expanded has an unvisited neighbour |
| LineageReport.VisitsAllWhen | mssql/replication/main.py:291-364 | whatever the order of the rows, visited is exactly the reachable set when everything behind another server's working distributor can be reached around such distributors; in particular when every distributor is its own server |
| LineageReport.SureVisited | mssql/replication/main.py:300-357 | every server on a path through no such distributor is visited |
| LineageReport.DedicatedVisits | mssql/replication/main.py:315-357 | when no row leads to another server's distributor, visited is exactly what can be reached around distributors |
| LineageReport.DedicatedVisitsAllIff | mssql/replication/main.py:315-357 | for such networks a run is complete if and only if everything behind a distributor can be reached around it |
| LineageOrder.RowOrderDecides | mssql/replication/main.py:304-324 | two networks that differ in the order of log shipping rows only, one run visiting a server and the other missing it |
| LineageReport.MissesBehindDistributor | mssql/replication/main.py:320-324 | a network on which every run misses a reachable server |
| LineageReport.ReportedIff | mssql/replication/main.py:359-385 | an unreachable visited server holds its own error; a connected one holds an error only if its distributor refuses, and then always unless it is itself somebody's distributor |
| LineageReport.ReportsAConnectedServer | mssql/replication/main.py:359-385 | a network on which every run reports the connected root and not the distributor that refused |
| LineageReport.GraphIsLineage | mssql/replication/main.py:304-355 | the graph holds exactly the lineage of the expanded servers |
| Governance.Table.Subpartitions | gpdb/cron/archive_partition.py:43-57 | lists every range partition once, in range order or against it |
| Governance.Table.DropRank | gpdb/cron/archive_partition.py:76-87 | drops the partition of that rank and no other |
| Governance.Table.PrecreateSubpartition | gpdb/cron/archive_partition.py:225-254 | adds an equally long partition behind the given one, moving the rows of its range out of the default partition |
| Governance.CleanTail | gpdb/cron/archive_partition.py:302-315 | drops the longest tail of empty partitions beyond the horizon; each rank passed to DROP is that of the partition just tested |
| Governance.CleanHead | gpdb/cron/archive_partition.py:322-329 | drops the longest head of empty partitions; rank 1 is the partition just tested |
| Governance.Govern | gpdb/cron/archive_partition.py:302-332 | one run over a table is trim tail, pre-create from the partition listed first, trim head; an empty list raises and changes nothing |
| Governance.GovernAll | gpdb/cron/archive_partition.py:296-336 | tables are governed in order up to the first without partitions; that one and all behind it are untouched |
| Governance.Migrate | gpdb/cron/archive_partition.py:272-283 | exactly the partitions before the first non-archivable one become cold, with their range and rows unchanged |
| GovernanceTheorems.ChecksMean | gpdb/cron/archive_partition.py:185-204 | the two checks ask on which side of min(20 intervals, 365 days) the end lies, so they exclude each other |
| GovernanceTheorems.TrimTailDrops | gpdb/cron/archive_partition.py:307-315 | only empty partitions past the horizon are dropped, and the last one left is not such |
| GovernanceTheorems.TrimHeadDrops | gpdb/cron/archive_partition.py:325-329 | only empty partitions are dropped, and the first one left holds rows |
| GovernanceTheorems.StaleIsHarmless | gpdb/cron/archive_partition.py:317-320 | if the tail loop dropped the partition pre-creation starts from, pre-creation does nothing |
| GovernanceTheorems.SplitRows | gpdb/cron/archive_partition.py:232-240 | a split divides the default rows by range and loses or doubles none |
| GovernanceTheorems.SplitKeeps | gpdb/cron/archive_partition.py:225-254 | one pre-creation keeps the list sorted and gap-free, the multiset of rows, and every row in the partition of its key |
| GovernanceTheorems.CeilIsLeast | gpdb/cron/archive_partition.py:317-320 | the number of intervals used below is the least that covers the distance |
| GovernanceTheorems.PrecreateAdds | gpdb/cron/archive_partition.py:317-320 | the loop adds exactly ceil((H - (end - now)) / interval) equal partitions, none if that is not positive |
| GovernanceTheorems.PrecreateKeeps | gpdb/cron/archive_partition.py:317-320 | pre-creation keeps structure, rows and placement |
| GovernanceTheorems.PrecreateStops | gpdb/cron/archive_partition.py:317-320 | it stops at the first end at or past the horizon, less than one interval beyond |
| GovernanceTheorems.GovernKeeps | gpdb/cron/archive_partition.py:302-329 | after any run: sorted, disjoint, gap-free, no row lost or misplaced, no partition with rows dropped, and the first partition holds rows or there is none |
| GovernanceTheorems.TailReachesHorizon | gpdb/cron/archive_partition.py:307-315 | the tail loop stops less than a whole interval past the horizon if and only if no partition with rows lies that far out |
| GovernanceTheorems.GovernReachesHorizonIff | gpdb/cron/archive_partition.py:302-329 | with equal intervals and some partition holding rows, a run leaves the list ending strictly within one interval of the horizon if and only if no partition with rows lies a whole interval past it |
| GovernanceTheorems.AtMostTwentyAhead | gpdb/cron/archive_partition.py:174-186 | after such a run at most twenty partitions start at or after now |
| GovernanceTheorems.AtMostAYearAhead | gpdb/cron/archive_partition.py:185-186 | and the list ends less than 21 intervals, and less than 365 days and one interval, after now |
| GovernanceTheorems.AlmostTwentyAhead | gpdb/cron/archive_partition.py:203-204 | and more than 19 intervals, or more than 365 days less one interval, after now |
| GovernanceTheorems.GovernFixpointIff | gpdb/cron/archive_partition.py:302-329 | a run changes nothing if and only if the first partition holds rows and the last ends on the horizon, or past it holding rows |
| GovernanceTheorems.GovernOscillates | gpdb/cron/archive_partition.py:302-329 | a table overshooting the horizon by part of an interval alternates between two states at one clock |
| GovernanceTheorems.CreatedEmptyIff | gpdb/cron/archive_partition.py:232-240 | after pre-creation all partitions are empty if and only if they were and no default row falls into the range created |
| GovernanceTheorems.GovernLosesAllIff | gpdb/cron/archive_partition.py:317-329 | a run leaves no partition if and only if all are empty and no default row falls into the partitions to be created |
| GovernanceTheorems.StoppingIsFiltering | gpdb/cron/archive_partition.py:104-105 | on a sorted list stopping at the first partition that may stay makes cold exactly those that end before now minus the given days |
| Josephus.AddChild | xampp/www/Josephu.php:31-54 | builds a ring of n distinct children numbered 1 to n |
| Josephus.FindTail | xampp/www/Josephu.php:87-91 | the walk from the first child ends at the one in front of it |
| Josephus.CountChild | xampp/www/Josephu.php:80-119 | the children leave, and the last one stays, in the order of repeatedly rotating the line and taking its head |
| Josephus.Leave | xampp/www/Josephu.php:110-113 | the first child is taken out and the rest is a ring again |
| Josephus.Advance | xampp/www/Josephu.php:104-108 | moving both pointers on rotates the ring and relinks nothing |
| Josephus.EliminatePermutes | xampp/www/Josephu.php:103-117 | leavers and survivor are a permutation of the children |
| Josephus.RotateAt | xampp/www/Josephu.php:94-97 | where each child stands after counting |
| Josephus.SurvivorAt | xampp/www/Josephu.php:103-117 | for m >= 1 the survivor's place is J with J(1) = 0 and J(i) = (J(i-1) + m) mod i |
| Josephus.GameFirst | xampp/www/Josephu.php:94-110 | the first to leave is m - 1 places on from the starter |
| Josephus.SmallCountsAsOne | xampp/www/Josephu.php:94-104 | counting to less than one is counting to one |
| Josephus.GameResult | xampp/www/Josephu.php:80-119 | for n, m, k >= 1 on the circle 1..n: everyone leaves once but the survivor, whose number is 1 + ((k-1) + J(n)) mod n, and the first to leave is 1 + (k-1 + m-1) mod n |
| Josephus.Play | xampp/www/Josephu.php:121-124 | building the ring and playing on the heap gives that survivor and that first leaver; m or k below 1 behave as 1 |
| DoubleLink.AddHero | xampp/www/doubleLink.php:32-76 | inserts the hero at its place unless the number is taken; the list stays fully linked if and only if an appended hero had no old successor |
| DoubleLink.LinkAfter | xampp/www/doubleLink.php:58-71 | the four link updates put the hero right behind the node found |
| DoubleLink.DelHero | xampp/www/doubleLink.php:80-109 | removes the hero of that number if there is one; pre and next stay mutually inverse |
| DoubleLink.Unlink | xampp/www/doubleLink.php:96-102 | the two link updates take out exactly that node |
| DoubleLink.ShowHero | xampp/www/doubleLink.php:112-120 | shows the entries in list order |
| DoubleLink.Manage | xampp/www/doubleLink.php:124-150 | any history of additions of fresh heroes and deletions yields a well-linked list holding the ranking of that history |
| SingleLink.AddHero | xampp/www/singleLink.php:50-88 | inserts the hero at its place unless the number is taken |
| SingleLink.DelHero | xampp/www/singleLink.php:112-134 | removes the hero of that number if there is one |
| SingleLink.UpdateHero | xampp/www/singleLink.php:138-162 | replaces the names of the hero of that number if there is one; links are untouched |
| SingleLink.ShowHeros | xampp/www/singleLink.php:95-108 | shows the entries in list order |
| SingleLink.Manage | xampp/www/singleLink.php:164-197 | any history of additions, deletions and updates yields a well-linked list holding the ranking of that history |
| HeroRanking.InsertMap | xampp/www/singleLink.php:63-85 | adding is insert-if-absent on the finite map and keeps the numbers strictly increasing |
| HeroRanking.RemoveMap | xampp/www/singleLink.php:112-134 | deleting is removal from the map and keeps the order |
| HeroRanking.UpdateMap | xampp/www/singleLink.php:138-162 | updating is update-if-present and keeps the order |
| HeroRanking.HistoryIsMap | xampp/www/doubleLink.php:32-109 | after any history the ranking is strictly sorted and is the map of that history |
| HeroRanking.AddThenDelete | xampp/www/doubleLink.php:32-109 | adding a new number and deleting it restores the ranking |
| HeroRanking.AddThenDeleteIff | xampp/www/doubleLink.php:32-109 | it restores the ranking if and only if the number was new |
| CredentialText.WrittenLineReads | kafka/cdc/src/sanitization.py:18-23 | a line written PREFIX_FIELD=VALUE is read back as that prefix, field, key and value |
| CredentialText.SkippedIff | kafka/cdc/src/sanitization.py:19-21 | a line is passed over if and only if it is blank or its first visible character is # |
| CredentialText.MalformedIff | kafka/cdc/src/sanitization.py:22-23 | any other line raises if and only if it has no = or no underscore before the first = |
| PythonText.StripMeans | kafka/cdc/src/sanitization.py:19-22 | stripping removes whitespace at both ends, all of it, and nothing else |
| CredentialText.ExtractIsLazyMatch | kafka/cdc/src/main.py:114-119 | a placeholder is found if and only if one matches, with the shortest path and then the shortest key |
| CredentialText.ExtractIff | kafka/cdc/src/main.py:118-119 | the groups are a given path and key if and only if these are the lazy match |
| CredentialText.PlaceholderRoundTrip | kafka/cdc/src/main.py:118-119 | what the printer writes is taken apart into the same path and key if and only if the key has no closing brace or newline |
| CredentialMapping.ParseCredentials | kafka/cdc/src/sanitization.py:14-35 | the aliased dictionaries show the owner map of the records read, entry by entry; a malformed line raises |
| CredentialMapping.AddRecord | kafka/cdc/src/sanitization.py:25-32 | one record: its entry opened if new, its key stored, its hostname aliased to the same object |
| CredentialMapping.OpenEntry | kafka/cdc/src/sanitization.py:26-27 | a missing prefix gets a fresh entry of its own |
| CredentialMapping.StoreKey | kafka/cdc/src/sanitization.py:28-28 | writing through one name shows under every alias and nowhere else |
| CredentialMapping.ReplaceConfig | kafka/cdc/src/sanitization.py:37-55 | masks the four settings of a known, unmasked host; otherwise changes nothing; a missing key raises after the settings before it |
| CredentialMapping.ReplacedTwice | kafka/cdc/src/sanitization.py:39-55 | masking again changes nothing, for every configuration and mapping, even after a KeyError |
| CredentialMapping.PlainHostUnmasked | kafka/cdc/src/sanitization.py:42-44 | a hostname that does not begin with $ is never taken for a mask |
| CredentialMapping.MaskTwice | kafka/cdc/src/sanitization.py:37-55 | two maskings on the heap leave what one leaves |
| CredentialMapping.OneWaitingHolds | kafka/cdc/src/sanitization.py:25-32 | of two names sharing an entry at least one has had its HOSTNAME line, whatever the order of lines |
| CredentialMapping.HostState | kafka/cdc/src/sanitization.py:25-32 | a host's entry holds the key of the last line naming it, or that of a later HOSTNAME line if one claims the host as its prefix |
| CredentialMapping.HostResolvesIff | kafka/cdc/src/main.py:122-134 | for any lines with unique printable keys, a named host's mask resolves to it if and only if no line after the last one naming it gives a hostname to a prefix of that name |
| CredentialMapping.AddAllHolds | kafka/cdc/src/sanitization.py:18-32 | for any order of lines, each prefix holds its own keys, distinct prefixes distinct entries, and each hostname shares its prefix's entry |
| CredentialMapping.KnownHost | kafka/cdc/src/sanitization.py:30-32 | at the end a known hostname holds all four keys of its prefix |
| CredentialMapping.MaskedShape | kafka/cdc/src/sanitization.py:46-52 | with four keys all four settings become their placeholders and nothing else changes |
| CredentialMapping.ResolvePlain | kafka/cdc/src/main.py:122-134 | a value without a placeholder is returned unchanged |
| CredentialMapping.ResolveEmpty | kafka/cdc/src/main.py:130-134 | and so is one whose path or key is empty |
| CredentialMapping.ResolveChosen | kafka/cdc/src/main.py:126-132 | otherwise the key is looked up in the file named, or in the default file if that one does not exist, and the marker is given where the chosen file lacks it |
| CredentialMapping.KeyResolves | kafka/cdc/src/main.py:122-134 | the placeholder of a recorded key resolves to the value on its line |
| CredentialMapping.MaskResolves | kafka/cdc/src/main.py:122-134 | for hostnames apart from foreign prefixes and complete hosts, all four settings are masked and each resolves to the value on the host's own line |
| CredentialMapping.MaskTwiceThenResolve | kafka/cdc/src/sanitization.py:37-55 | parse, mask, mask again, resolve: the second masking changes nothing, and the hostname comes back under exactly that condition |
| CredentialMapping.ForeignPrefixBreaks | kafka/cdc/src/sanitization.py:26-32 | for any two colliding prefixes: in one order of the lines the host's mask resolves to the other host, in the other order to itself |
| Reconcile.Server.Apply | kafka/cdc/src/main.py:424-474 | the tracked tables after enabling and disabling, with dry run and failing statements |
| Reconcile.Server.Enable | kafka/cdc/src/main.py:431-450 | every table whose statement succeeds becomes tracked |
| Reconcile.Server.Disable | kafka/cdc/src/main.py:453-471 | every table whose statement succeeds stops being tracked |
| Reconcile.Round | kafka/cdc/src/main.py:285-290 | comparing and then applying the two differences |
| Reconcile.FailureIsLocal | kafka/cdc/src/main.py:444-471 | whether a statement fails matters to the tables of that bare name only, whatever the sets |
| Reconcile.RoundTracks | kafka/cdc/src/main.py:431-471 | when all to enable are plain dbo names and all to disable plain, a table is tracked as before if its statement fails and as synced otherwise |
| Reconcile.RoundConvergesIff | kafka/cdc/src/main.py:285-290 | an undisturbed round makes tracked equal synced if and only if all to enable are plain dbo names and all to disable plain |
| Reconcile.ForeignSchemaOscillates | kafka/cdc/src/main.py:434-440 | a table of another schema is tracked and untracked in alternate rounds |
| Reconcile.TopicsReconciled | kafka/cdc/src/main.py:1000-1014 | missing is exactly expected minus existing; a topic is deprecated if and only if it exists, is not expected and begins with some expected topic up to and including its last dot |
| AlertProxy.FingerprintStore.SetIfAbsent | prometheus/proxy-webhook/main.go:39-47 | keeps the first time stored for a key and returns it |
| AlertProxy.FingerprintStore.Delete | prometheus/proxy-webhook/main.go:49-53 | forgets exactly that key |
| AlertProxy.KeyIsIncident | prometheus/proxy-webhook/main.go:197-206 | alerts with equal labels at every name but severity have one key, and with an injective hash no others have |
| AlertProxy.RewriteAlerts | prometheus/proxy-webhook/main.go:193-223 | the in-place loop rewrites each alert from the store as left by the alerts before it |
| AlertProxy.RequestsCompose | prometheus/proxy-webhook/main.go:193-223 | two requests in turn are one request with both lists |
| AlertProxy.RewrittenAt | prometheus/proxy-webhook/main.go:193-223 | what each alert becomes depends only on the alerts before it |
| AlertProxy.StartKept | prometheus/proxy-webhook/main.go:206-221 | while an incident is unresolved the store holds the start written into its alerts |
| AlertProxy.OneStartPerKey | prometheus/proxy-webhook/main.go:206-221 | alerts of one key carry one start time until one of them is resolved |
| AlertProxy.OneStartPerIncident | prometheus/proxy-webhook/main.go:193-223 | alerts with equal labels up to severity carry one start time and one fingerprint until the key is resolved; labels and status are not changed |
| AlertProxy.FingerprintIsIncident | prometheus/proxy-webhook/main.go:206-216 | with an injective hash two alerts get one fingerprint if and only if their labels are equal up to severity |
| AlertProxy.GoneAfterResolved | prometheus/proxy-webhook/main.go:219-221 | after a resolved alert the key stays out of the store until its next alert |
| AlertProxy.ResolvedEndsIncident | prometheus/proxy-webhook/main.go:206-221 | the first alert after a resolved one keeps its own start time |
| AlertInterleaving.StoreIsOpenIncidents | prometheus/proxy-webhook/main.go:39-53 | in lock order a key is stored if and only if its last call is a SetIfAbsent, with the time of the first one since the last Delete |
| AlertInterleaving.RunKeeps | prometheus/proxy-webhook/main.go:103-223 | every step of every interleaving keeps: store equals replayed log, turns are consecutive, outputs are what the calls returned |
| AlertInterleaving.OutputsAreIncidentStarts | prometheus/proxy-webhook/main.go:193-223 | under any interleaving the start written into an alert is that of the call that opened its incident |
| AlertInterleaving.OneStartUnlessDeleted | prometheus/proxy-webhook/main.go:206-221 | under any interleaving two alerts of one key carry one start unless the key was deleted between them in lock order |
| AlertInterleaving.OneIncidentOneStart | prometheus/proxy-webhook/main.go:193-221 | the same for two alerts with equal labels up to severity |
| AlertInterleaving.PanickedWritesNothing | prometheus/proxy-webhook/main.go:108-115 | a request whose turn has a negative index rewrites no alert |
| AlertInterleaving.ShareInRound | prometheus/proxy-webhook/main.go:103-110 | within one round below 2^63 each target is hit at one known turn |
| AlertInterleaving.FairShare | prometheus/proxy-webhook/main.go:103-110 | in any window of turns below 2^63 two targets differ by at most one, and n turns hit each of n targets once |
| AlertInterleaving.RoundRobinIsFair | prometheus/proxy-webhook/main.go:103-110 | the same for any window of requests under any interleaving |
| AlertInterleaving.NeverPanicsIff | prometheus/proxy-webhook/main.go:108-109 | over the whole 64-bit counter the index is in range for every turn if and only if there is one target |
| QuestionParser.Parser.Flush | playground/python/parse_pdf.py:74-78 | emits the question collected so far, if any, and clears text, options and answer |
| QuestionParser.Parser.Open | playground/python/parse_pdf.py:74-100 | emits the question before, then starts the new one with the shared stem if its number is in range |
| QuestionParser.Parser.Continue | playground/python/parse_pdf.py:61-70 | a collected line closes the question with its answer or is appended |
| QuestionParser.Parser.Read | playground/python/parse_pdf.py:61-108 | the part of the body outside shared-stem mode is the event the line is |
| QuestionParser.Parser.Take | playground/python/parse_pdf.py:35-108 | the whole body of the loop is the event the line is, for all ten variables |
| QuestionParser.Parse | playground/python/parse_pdf.py:23-114 | the pass returns exactly the segments of the lines: one question per start, in order |
| QuestionParser.StartsExact | playground/python/parse_pdf.py:72-102 | the starts are all the lines that open a question, once each, in order |
| QuestionParser.EmittedIsSegments | playground/python/parse_pdf.py:74-112 | what is emitted at each start and at the end is the segment that ends there |
| QuestionMeaning.LineMeans | playground/python/parse_pdf.py:44-108 | which lines start a question, are options, close an open question or are appended to it, from the lines before them alone |
| QuestionMeaning.CollectingIff | playground/python/parse_pdf.py:61-101 | a question is being collected if and only if one was begun without its answer and only stem lines and plain lines came since |
| QuestionMeaning.StemIsLines | playground/python/parse_pdf.py:45-58 | the shared stem is the lines right after the last header, up to the first that is blank, numbered or lettered, joined by blanks |
| QuestionMeaning.OpeningIsText | playground/python/parse_pdf.py:81-100 | a question begins with the stem, a blank and its own text if its number is in the range of the last header, both ends included, and that header has stem lines; otherwise with its own text alone |
| QuestionMeaning.OptionLinesExact | playground/python/parse_pdf.py:105-108 | the option lines of a question are all of them, in order |
| QuestionMeaning.SegmentSays | playground/python/parse_pdf.py:23-112 | number, text, options and answer of every question, from the lines between its start and the next |
| QuestionParser.OpeningTextVisible | playground/python/parse_pdf.py:81-101 | an opened question's text is never empty, so none is lost at the next start |
| QuestionParser.CategoryCarries | playground/python/parse_pdf.py:38-42 | the current category is the last header's |
| QuestionParser.SectionKeptIff | playground/python/parse_pdf.py:74-91 | a question keeps its section's category if and only if no other header is the last one up to the line that emits it |
| QuestionParser.LastOfSectionMisfiled | playground/python/parse_pdf.py:74-75 | four lines on which the last question of a section is filed under the next |
| DiffParquet.BatchProcess | parquet/diff-parquet/main.py:143-155 | counts the hours of the non-null stamps of one row group; one bad stamp raises |
| DiffParquet.AddCounter | parquet/diff-parquet/main.py:160-161 | adding a counter item by item adds the counts |
| DiffParquet.MergeCounters | parquet/diff-parquet/main.py:157-162 | the merged counter holds the sum of all counters |
| DiffParquet.ExtractByTsms | parquet/diff-parquet/main.py:164-180 | counting per row group and merging equals counting the whole column for every split; one bad stamp gives nothing |
| DiffParquet.HoursAppend | parquet/diff-parquet/main.py:173-176 | counting and failing both distribute over concatenated columns |
| DiffParquet.HoursAt | parquet/diff-parquet/main.py:146-154 | each hour counts exactly the rows whose stamp falls into it |
| DiffParquet.HoursCountValid | parquet/diff-parquet/main.py:146-154 | the counts over all hours sum to the number of non-null rows |
| DiffParquet.Process | parquet/diff-parquet/main.py:220-228 | a file is counted by stamps, by its number of rows under the hour in its name and no other, or not at all |
| DiffParquet.Downloader.Take | parquet/diff-parquet/main.py:206-218 | uses the cached file, without a fetch, when etag and file are there; otherwise a fetch replaces both, and a failed one changes nothing |
| DiffParquet.Downloader.TakeAndCount | parquet/diff-parquet/main.py:206-231 | one object adds the counts of the file taken to the totals |
| DiffParquet.Downloader.Run | parquet/diff-parquet/main.py:196-233 | the totals are those of the listed version of every object that is cached or fetched, and the cache stays coherent |
| DiffParquet.RunCoherentIff | parquet/diff-parquet/main.py:198-218 | a run keeps the cache coherent if and only if each successful fetch delivers the listed version; failed ones do no harm |
| DiffParquet.CutShortCoherentIff | parquet/diff-parquet/main.py:214-233 | after a run cut short before saving, coherent if and only if each replaced file is the same in both versions |
| DiffParquet.CountedIsListed | parquet/diff-parquet/main.py:206-231 | every file counted is the listed version |
| Arrangements.RaisesIff | playground/sql/24point.sql:63-75 | the call raises if and only if r is negative, or the array is empty and r positive |
| Arrangements.RowsAreArrangements | playground/sql/24point.sql:65-75 | for distinct elements the rows are exactly the arrangements of r of them, without repeats, n(n-1)...(n-r+1) of them |
| Arrangements.RowIffRead | playground/sql/24point.sql:65-75 | for any elements a row is what is read at some r distinct positions, and every such reading is a row |
| Arrangements.PermutationsAreExact | playground/sql/24point.sql:49-78 | for 0 <= r <= n: no error, exactly the readings at r distinct positions, n!/(n-r)! rows, no repeats if the elements are distinct |
| Arrangements.OperatorsAreFour | playground/sql/24point.sql:24-26 | the operators tried are + - * / and no other |
| Arrangements.FindFor | playground/sql/24point.sql:20-38 | for one permutation: an operator choice giving 24, or none of the 64 does |
| Arrangements.Find24 | playground/sql/24point.sql:16-42 | where the record can be subscripted, an answer gives 24 and is made of one of the permutations, and NULL means none gives 24; where it cannot, the call raises exactly when there is a permutation or the array is empty |

## Left out

- LineageReport.VisitsAllWhen: one direction in general. It is exact for dedicated distributors (`DedicatedVisitsAllIff`); for the rest `RowOrderDecides` shows that no condition on the links alone is exact, and `VisitsAllIff` gives the one on the final dictionary.
- LineageReport.ReportedIff: does not say whether a connected server that is both somebody's distributor and refused by its own keeps its error, because the later of the two writes wins.
- CredentialMapping.MaskResolves: asks that hostnames are apart from foreign prefixes, for port, user and password; for the hostname itself `HostResolvesIff` is exact without it.
- Calculator.Evaluate: the empty expression is excluded, because the scan then never ends.
- DoubleLink.Manage: adds fresh heroes; re-adding an unlinked hero is covered by `AddHero` alone, which says when a stale successor breaks the list.
- Arrangements.Find24: evaluating an expression is a parameter, and the cross join of operators is taken in nested order.
- Lineage: server names are compared as they are, answers do not change during a run, the blacklist clean-up, table statistics in the graph, and errors other than refused connections are not modelled.
- Governance: parsing of the range literals, the whitelist, the default partition's existence, and failures of DROP, SPLIT and SET TABLESPACE; intervals are taken as positive and the listing as ordered by the query.
- Governance reads the clock several times a run; here once.
- The commented-out S3 migration and single-reduction code.
- PHP's number conversion and division: the four operations are parameters.
- ConfigParser beyond `key=value` lines (sections, continuation lines, `%` interpolation, inline comments); a repeated key empties the result as the strict parser does.
- The regular expressions of the exam parser: each line comes with what they match. Options are kept as a list instead of one joined string, and the spreadsheet is not written.
- HTTP forwarding, JSON, reading requests, and the case without targets in the alert proxy; the fingerprint is any function of the labels without severity. SetIfAbsent followed by Delete is two steps, not one.
- The time-range filter, the process pool, and the printing of the totals in the parquet counter.
- The rest of the CDC program: connectors, replication slots, Always On checks, active topics, and loss of the connection while tables are enabled.
- `xampp/www/stack.php` (the same bounded stack with a page that shows it), the array-filling scripts, the SMB copy loops, `mssql/test/ag_listener/main.py` (an endless random workload against a listener), and the deployment files (images, compose files, shell scripts, dashboards and proxy configuration).
