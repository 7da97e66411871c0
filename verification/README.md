# Verification of the people detection system

A Dafny 4.11 model of the logic of this repository, with machine-checked proofs. The repository is
an ESP32 sniffer that captures Wi-Fi probe requests and uploads them in batches, a server that
starts the sniffers together, validates and stores the packets and locates their senders, and a
vendored copy of dlib. `dafny verify dfyconfig.toml` checks everything.

**Bayesian join trees** (`Trees`, `Tables`, `Schedule`, `Calibration`, `Propagation`, `Invariants`,
`Forecast`, `JoinTree`). The message loop of the join-tree constructor, over an arbitrary tree of
cliques: `MessageLoop` is the loop with its to-send and to-receive sets, `Send` the transition it
makes, `Ready` the condition under which it makes it. Tables are maps from assignments to
non-negative reals. Where the loop takes an element of a set with `remove_any`, any element is
allowed, so the results hold for every order. `Forecast` computes, from the initial tables alone and
by recursion over the tree, the sums that each clique reports and is answered with. The result is
`Finished`: the loop ends, every directed edge has carried exactly one message in its turn, the
tables are the forecast ones, their product is still the distribution they started with, and the
tree is calibrated if and only if the initial tables meet `StaysBelow`.

**Exact inference** (`Summation`, `Elimination`, `Bayes`, `Inference`, `Construction`, `Posterior`,
`Clipping`). `Construction.Create` makes the first tables from a Bayesian network with evidence, as
the constructor does, and runs the message loop on them. If every node is in some clique together
with its parents, and the rows of the conditional probability tables sum to at most 1, no sum of any
message exceeds 1, nothing is clipped, the tree is calibrated, every clique holds the exact joint
probabilities of its nodes and the evidence, and `Distribution` returns the posterior of a node.
`Summation` sums over assignments, `Elimination` uses the path condition of a join tree to turn the
forecast into marginals of the product of the initial tables, and `Bayes` sums out the nodes of an
acyclic network, ancestors first. `Clipping` is an accepted join tree without that property, where
clipping does leave two cliques in disagreement. `Odometer` is the counting loop over assignments,
which `Construction` uses too, and the check that a conditional probability table is complete.

**Big integers** (`Digits`, `Records`, `RecordSub`, `RecordShort`, `Shifts`, `LongMul`, `LongDiv`,
`BigInts`, `Decimal`). Digit records are classes with arrays of base-65536 digits, changed in place;
source and result may be one record wherever the original allows it. `Store` is the set of live
handles and records, and its invariant, kept by every operation, says that each reference count is
the number of handles on the record, that no record without handles is kept and that every record is
canonical; `Others(x)` says that no other handle changed. `Decimal` prints and parses.

**Capture and upload** (`Sniffer`, `Batches`, `Delivery`, `Progress`, `Firmware`). The timer task
and the packet callback, interleaved one load or store at a time under sequential consistency:
Peterson's lock, the counter, the list with its empty tail node, `malloc` and `free`. Nodes live in
a map from addresses, so that freed memory, reuse of addresses and use after free can be told apart;
a step that touches memory that is not allocated is a `Fault`. The last six fields of `Device`
record the history and are read by no step. `Batches` has the runs in which a write fails inside a
batch. `Delivery` follows a run with an observer who sees the radio, `malloc` and the network calls
only, and says what an upload sends and when it gives up; `Progress` bounds the steps of both
contexts.

**Sorting** (`Ordering`, `InsertionSort`, `HeapSort`, `QuickSort`). The generic introsort, in place
on an array, for every strict weak order.

**Codecs**. `Base64`, `Framing`, `Grammar`, `Containers` and `Streams` (dlib's serialization), and
`Utf8` (the SSID check). In `Framing` the elements of a set and the pairs of a map are listed in the
order of their keys, the order of iteration in C++, for any comparison object. `Grammar` says which
bytes are written for a value and which are read as one, without the functions that write and read
them.

`Sequences` and `Arithmetic` hold what several of these need.

**Geometry and start-up**. `Segments` (segment intersection over real coordinates, with the
truncation of the orientation to int), `ReadyBarrier` (the server threads that count down READY
messages under a mutex and a condition variable) and `Lockout` (who can still be answered).

## Where the code and its documentation differ

- The comment on `long_div` asks for a result of `lhs->digits_used` digits, but `shift_left`, which
  it applies to the result, always writes one digit above the used ones, so `LongDivide` asks for one
  more. The callers allocate 25 more.
- The comment on `shift_left` sizes the result by `shift_amount/8`; the code needs `shift_amount/16`
  digits and one more, and that is what `ShiftLeft` asks for.
- The comment on `short_add` asks for room for one digit more than the operand. Every caller gives it
  that, with a new record or with the operand's own when it is not full. The code needs it only when
  the sum does not fit the operand's digits, and `ShortAdd` asks for no more.
- `short_mul` by 0 keeps the digits of the operand as leading zeros; `ShortMul` says exactly when the
  result is canonical.
- `add_probability` cuts sums at 1, so neighbours can end in disagreement. `CalibratedIffUnclipped` has
  the exact condition on the initial tables, `HousedIsNotClipped` shows that a tree whose cliques hold
  the families meets it, and `RunClipped` is a tree that `is_join_tree` accepts and that does not:
  `is_join_tree` asks only that each node is in some clique, not that its parents are there too. The
  check of the conditional probability tables lets a row exceed 1 by less than 1e-5; for such a row
  only the exact condition applies.
- A write that fails inside a batch leaves `head` on a freed node. `StepKeepsListIff` and
  `ListedIffRegular` say that this is the only way to lose the list, in every run, and
  `FailedWriteFaults` is a run from the start that then reads freed memory. The results of `Sniffer`
  are for runs in which writes fail only before the first packet of a batch; `CountsWhateverFails`
  needs no such condition.
- The comment on `orientation` promises a sign; after the conversion to int it is right exactly when
  the cross product is 0 or at least 1 in size. `ExactlyWhenWrong` says when `doIntersect` errs, and
  `TruncationMisleads` has a false hit and a miss in the form of its only call.
- The READY counter is not put back when the answer to a thread is reset, so a second READY takes it
  below zero. `BelowZeroIffTwice` and `AnswerableIff` are the exact conditions, `ResetRunLocksOut` a
  run of two threads that neither of them survives. A counter of exactly 0 can be lost too, while a
  thread that has passed the mutex is about to count a second time.
- `checkSSID` accepts overlong forms and numbers above 10FFFF: `ValidIsTight` has the exact condition.

## Model

| member | source | states |
|---|---|---|
| `Trees.Root` | PDS_Detection_System/PDS_Detection_System/dlib/bayes_utils/bayes_utils.h:1515-1517 | on every connected graph without a cycle, node 0 is the root of a spanning parent structure: each other node has one parent, strictly closer to the root, and every edge joins a node to its parent |
| `Schedule.StepKeepsSafe` | PDS_Detection_System/PDS_Detection_System/dlib/bayes_utils/bayes_utils.h:1524-1567 | sending keeps the two books in step (j is in i's to-send set exactly when i is in j's to-receive set) and keeps the rule that a sent message had all the sender's other messages behind it |
| `Schedule.RootSpoke` | PDS_Detection_System/PDS_Detection_System/dlib/bayes_utils/bayes_utils.h:1524-1567 | a message away from the root has been sent only if the root has sent one before |
| `Schedule.AllReported` | PDS_Detection_System/PDS_Detection_System/dlib/bayes_utils/bayes_utils.h:1529-1544 | once the root has heard from all its neighbours, every node has reported upwards |
| `Schedule.AnswerMeansAllReported` | PDS_Detection_System/PDS_Detection_System/dlib/bayes_utils/bayes_utils.h:1524-1567 | as soon as any node has answered downwards, every node of the tree has reported upwards |
| `Schedule.UpBeforeDown` | PDS_Detection_System/PDS_Detection_System/dlib/bayes_utils/bayes_utils.h:1524-1567 | on every edge the message towards the root goes before the message away from it |
| `Schedule.QuietMeansDone` | PDS_Detection_System/PDS_Detection_System/dlib/bayes_utils/bayes_utils.h:1522-1570 | if no branch of the loop body applies to any node, every directed edge has carried its message: a pass that sends nothing means all is sent |
| `Schedule.OutstandingDrops` | PDS_Detection_System/PDS_Detection_System/dlib/bayes_utils/bayes_utils.h:1539-1565 | every send lowers the number of outstanding messages by one, which is why the loop ends |
| `Tables.Marginalize` | PDS_Detection_System/PDS_Detection_System/dlib/bayes_utils/bayes_utils.h:392-415 | the loop over add_probability gives the clipped sum over the fibre of each projected assignment, whatever the order of the entries |
| `Tables.Divide` | PDS_Detection_System/PDS_Detection_System/dlib/bayes_utils/bayes_utils.h:1319-1333 | the in-place division by the old separator, with the empty separator and the zero entries left alone |
| `Tables.Multiply` | PDS_Detection_System/PDS_Detection_System/dlib/bayes_utils/bayes_utils.h:1335-1351 | the in-place product with the divided separator, entry by entry |
| `Tables.MassByFibre` | PDS_Detection_System/PDS_Detection_System/dlib/bayes_utils/bayes_utils.h:392-415 | the sums of a marginal add up to the sum of the table |
| `Tables.RawOfScale` | PDS_Detection_System/PDS_Detection_System/dlib/bayes_utils/bayes_utils.h:1335-1351 | multiplying a table by a separator multiplies its marginal sums by it |
| `Calibration.ReportUp` | PDS_Detection_System/PDS_Detection_System/dlib/bayes_utils/bayes_utils.h:1300-1356 | after the message towards the root the separator is the clipped marginal of the sender, and its zeros are zeros of the receiver |
| `Calibration.OtherMessage` | PDS_Detection_System/PDS_Detection_System/dlib/bayes_utils/bayes_utils.h:1300-1356 | a message on another edge into the receiver does not disturb what an edge has established |
| `Calibration.AnswerDown` | PDS_Detection_System/PDS_Detection_System/dlib/bayes_utils/bayes_utils.h:1319-1354 | after the answer the sums of the lower clique satisfy the calibration equation, including where the old separator entry is 0 and is not divided by |
| `Calibration.Calibrated` | PDS_Detection_System/PDS_Detection_System/dlib/bayes_utils/bayes_utils.h:336-338 | after both messages the two ends and the separator agree on an entry exactly when the answer was not clipped there and the report was not either, unless the answer is 0 |
| `Propagation.SendKeepsInv` | PDS_Detection_System/PDS_Detection_System/dlib/bayes_utils/bayes_utils.h:1300-1356 | one message keeps the state of every edge of the tree, not only of the one it travels |
| `Invariants.SendKeepsLog` | PDS_Detection_System/PDS_Detection_System/dlib/bayes_utils/bayes_utils.h:1524-1567 | the messages sent so far are all different, each sent in its turn, and are exactly those missing from the to-send sets |
| `Invariants.RootSpeaksFirst` | PDS_Detection_System/PDS_Detection_System/dlib/bayes_utils/bayes_utils.h:1556-1567 | in the order of the run, every message away from the root has a message of the root before it |
| `Invariants.SendKeepsJoint` | PDS_Detection_System/PDS_Detection_System/dlib/bayes_utils/bayes_utils.h:1300-1356 | what the tables stand for never changes: for each joint assignment the product of the clique entries is the initial product times the separator entries |
| `Invariants.SendKeepsLight` | PDS_Detection_System/PDS_Detection_System/dlib/bayes_utils/bayes_utils.h:1300-1356 | if every clique holds at most one unit of weight no sum is ever clipped, and that stays so |
| `Forecast.HeardMore` | PDS_Detection_System/PDS_Detection_System/dlib/bayes_utils/bayes_utils.h:1300-1356 | one more report multiplies a clique's forecast table by the clipped sums of the reporting child, in whatever order the children report |
| `Forecast.SendKeepsForeseen` | PDS_Detection_System/PDS_Detection_System/dlib/bayes_utils/bayes_utils.h:1300-1356 | no message departs from the forecast: every table, and every sum before clipping, is the one computed recursively from the initial tables alone |
| `JoinTree.SendKeepsGood` | PDS_Detection_System/PDS_Detection_System/dlib/bayes_utils/bayes_utils.h:1300-1356 | every invariant of the run together, and the measure, over one message |
| `JoinTree.FreshIsGood` | PDS_Detection_System/PDS_Detection_System/dlib/bayes_utils/bayes_utils.h:1500-1513 | they hold when everything is still to be sent |
| `JoinTree.AllAnswered` | PDS_Detection_System/PDS_Detection_System/dlib/bayes_utils/bayes_utils.h:1520-1570 | when nothing is left to send, each clique's table and each message's sums are the forecast ones, so the result does not depend on the order in which remove_any takes the nodes |
| `JoinTree.CalibratedIffUnclipped` | PDS_Detection_System/PDS_Detection_System/dlib/bayes_utils/bayes_utils.h:1520-1570 | at the end all neighbours agree with each other and with the stored separators if and only if the initial tables stay below 1: on each edge and for each separator assignment the forecast answer is at most 1, and so is the forecast report unless the answer is 0 |
| `JoinTree.QuietIsFinished` | PDS_Detection_System/PDS_Detection_System/dlib/bayes_utils/bayes_utils.h:1520-1570 | a run that has come to rest is finished: one message on every directed edge, the forecast tables, the same distribution, and calibration exactly where no sum that matters exceeds 1 |
| `JoinTree.MessageLoop.PassMessage` | PDS_Detection_System/PDS_Detection_System/dlib/bayes_utils/bayes_utils.h:1300-1356 | marginalise, divide, multiply, store: exactly the receiver and the separator change |
| `JoinTree.MessageLoop.Report` | PDS_Detection_System/PDS_Detection_System/dlib/bayes_utils/bayes_utils.h:1527-1545 | the first branch of the loop body sends one message that is ready |
| `JoinTree.MessageLoop.Answer` | PDS_Detection_System/PDS_Detection_System/dlib/bayes_utils/bayes_utils.h:1546-1566 | the other two branches send one message that is ready |
| `JoinTree.MessageLoop.Pass` | PDS_Detection_System/PDS_Detection_System/dlib/bayes_utils/bayes_utils.h:1524-1567 | a pass over the nodes either sends or finds that nothing can be sent |
| `JoinTree.MessageLoop.Propagate` | PDS_Detection_System/PDS_Detection_System/dlib/bayes_utils/bayes_utils.h:1520-1570 | on every tree and from every initial tables the loop terminates in a finished state |
| `Elimination.Crossing` | PDS_Detection_System/PDS_Detection_System/dlib/graph_utils/graph_utils.h:1093-1150 | the path condition: what a clique below an edge has in common with one beyond it is in the separator of the edge |
| `Elimination.ReportIs` | PDS_Detection_System/PDS_Detection_System/dlib/bayes_utils/bayes_utils.h:1300-1356 | the forecast report of a clique sums the product of all initial tables in its subtree over the nodes that occur below only, as long as no such sum exceeds 1 |
| `Elimination.AnswerIs` | PDS_Detection_System/PDS_Detection_System/dlib/bayes_utils/bayes_utils.h:1300-1356 | the forecast answer to a clique sums the product of all initial tables of the tree |
| `Elimination.FinalIsMarginal` | PDS_Detection_System/PDS_Detection_System/dlib/bayes_utils/bayes_utils.h:1373-1375 | so the final table of every clique is the marginal of that product, also where the division by a zero separator entry is left out |
| `Bayes.NodesSumBelow` | PDS_Detection_System/PDS_Detection_System/dlib/bayes_utils/bayes_utils.h:1066-1105 | summed over the values of any set of nodes of an acyclic network, the product of their conditional probabilities is at most 1, if the rows of their tables sum to at most 1 |
| `Inference.ProdIs` | PDS_Detection_System/PDS_Detection_System/dlib/bayes_utils/bayes_utils.h:1401-1493 | the product of the initial tables of any set of cliques is the product of the conditional probabilities of the nodes whose table went to them, or 0 where a value contradicts the evidence |
| `Inference.HousedIsNotClipped` | PDS_Detection_System/PDS_Detection_System/dlib/bayes_utils/bayes_utils.h:1452-1471 | if some clique holds each node together with its parents, no report and no answer exceeds 1, so nothing is ever clipped, on every join tree and for every evidence |
| `Inference.FinalIsExact` | PDS_Detection_System/PDS_Detection_System/dlib/bayes_utils/bayes_utils.h:1373-1375 | and then the final table of every clique holds the exact joint probabilities of its nodes and the evidence |
| `Construction.WeighEvidence` | PDS_Detection_System/PDS_Detection_System/dlib/bayes_utils/bayes_utils.h:1429-1444 | 1 for an assignment that agrees with the evidence on the nodes of the clique, 0 otherwise |
| `Construction.MultiplyNodes` | PDS_Detection_System/PDS_Detection_System/dlib/bayes_utils/bayes_utils.h:1447-1471 | multiplies by the conditional probability of exactly those nodes whose first clique with all their parents is this one, and keeps node_assigned_to in step |
| `Construction.FitsIsOver` | PDS_Detection_System/PDS_Detection_System/dlib/bayes_utils/bayes_utils.h:1474-1490 | what the counting loop runs through are exactly the legal assignments to the nodes of the clique |
| `Construction.FillTable` | PDS_Detection_System/PDS_Detection_System/dlib/bayes_utils/bayes_utils.h:1402-1493 | the loop over all assignments of a clique leaves an entry for each of them, with the weight of the evidence and of the nodes that go to this clique |
| `Construction.Initialise` | PDS_Detection_System/PDS_Detection_System/dlib/bayes_utils/bayes_utils.h:1401-1493 | each node's table is multiplied into one clique only, the first that holds its family, and into none if there is no such clique |
| `Construction.FinishedIsExact` | PDS_Detection_System/PDS_Detection_System/dlib/bayes_utils/bayes_utils.h:1520-1570 | a finished run on the tables made from a network whose families are all housed is calibrated and exact |
| `Construction.Create` | PDS_Detection_System/PDS_Detection_System/dlib/bayes_utils/bayes_utils.h:1360-1573 | the whole constructor: terminates in a finished state for every network and tree, and with the exact probabilities if every family is in some clique |
| `Posterior.SmallestClique` | PDS_Detection_System/PDS_Detection_System/dlib/bayes_utils/bayes_utils.h:1231-1251 | the first of the smallest cliques that hold the node |
| `Posterior.MarginalOfNode` | PDS_Detection_System/PDS_Detection_System/dlib/bayes_utils/bayes_utils.h:417-440 | the table of one node, taken from any clique that holds it, has the probability of each of its values together with the evidence |
| `Posterior.MassIsEvidence` | PDS_Detection_System/PDS_Detection_System/dlib/bayes_utils/bayes_utils.h:442-454 | its entries add up to the probability of the evidence |
| `Posterior.Normalize` | PDS_Detection_System/PDS_Detection_System/dlib/bayes_utils/bayes_utils.h:442-454 | dividing by the sum: each new entry times the sum is the old one |
| `Posterior.Distribution` | PDS_Detection_System/PDS_Detection_System/dlib/bayes_utils/bayes_utils.h:1253-1271 | for each value of the node, its probability given the evidence; not defined exactly when the evidence is impossible |
| `Clipping.StartIsUnique` | PDS_Detection_System/PDS_Detection_System/dlib/bayes_utils/bayes_utils.h:1401-1493 | on a network 0 -> 1 with the cliques {0} and {1} the initialisation leaves clique 1 with ones only |
| `Clipping.ClippedRunDisagrees` | PDS_Detection_System/PDS_Detection_System/dlib/bayes_utils/bayes_utils.h:334-339 | that network meets everything the constructor asks for and is accepted by is_join_tree, and every finished run on it leaves the two cliques in disagreement: a report of 2 is cut to 1 |
| `Clipping.RunClipped` | PDS_Detection_System/PDS_Detection_System/dlib/bayes_utils/bayes_utils.h:1360-1573 | the constructor, called on that network, ends uncalibrated |
| `Odometer.FirstParentAssignment` | PDS_Detection_System/PDS_Detection_System/dlib/bayes_utils/bayes_utils.h:973-992 | the assignment at place 0 |
| `Odometer.NextMovesOn` | PDS_Detection_System/PDS_Detection_System/dlib/bayes_utils/bayes_utils.h:1040-1061 | adding one with carry moves to the next place, or from the last place to all zeros, and touches the parents only |
| `Odometer.PlaceIdentifies` | PDS_Detection_System/PDS_Detection_System/dlib/bayes_utils/bayes_utils.h:1040-1061 | different assignments have different places |
| `Odometer.NextParentAssignment` | PDS_Detection_System/PDS_Detection_System/dlib/bayes_utils/bayes_utils.h:996-1062 | the loop with carries: true exactly when there is a next place, and then it is there; otherwise back at place 0 |
| `Odometer.VisitAll` | PDS_Detection_System/PDS_Detection_System/dlib/bayes_utils/bayes_utils.h:1086-1102 | the do/while around the odometer meets every assignment exactly once, in the order of places, and ends at all zeros |
| `Odometer.ConditionalTable.SetProbability` | PDS_Detection_System/PDS_Detection_System/dlib/bayes_utils/bayes_utils.h:535-564 | exactly one entry is given or changed; the others of a new row stay missing |
| `Odometer.RowCheck` | PDS_Detection_System/PDS_Detection_System/dlib/bayes_utils/bayes_utils.h:1089-1101 | true if and only if the row has an entry for every value and 99999 <= 100000 * its sum <= 100001 |
| `Odometer.NodeCptFilledOut` | PDS_Detection_System/PDS_Detection_System/dlib/bayes_utils/bayes_utils.h:1066-1105 | true if and only if every assignment to the parents has a row with every entry given and a sum of 1 give or take 0.00001, parents without values counting as having one |
| `Digits.CanonicalUnique` | PDS_Detection_System/PDS_Detection_System/dlib/bigint/bigint_kernel_1.h:40-60 | a number has one canonical digit sequence |
| `Records.LongAdd` | PDS_Detection_System/PDS_Detection_System/dlib/bigint/bigint_kernel_1.cpp:1162-1236 | the sum, canonical, in a result that may be either operand |
| `RecordSub.LongSub` | PDS_Detection_System/PDS_Detection_System/dlib/bigint/bigint_kernel_1.cpp:1240-1295 | the difference with the leading zeros dropped, in a result that may be either operand |
| `RecordSub.IsLessThan` | PDS_Detection_System/PDS_Detection_System/dlib/bigint/bigint_kernel_1.cpp:1546-1581 | comparison of canonical digits is comparison of values |
| `RecordSub.IsEqualTo` | PDS_Detection_System/PDS_Detection_System/dlib/bigint/bigint_kernel_1.cpp:1585-1614 | the same for equality |
| `RecordShort.ShortAdd` | PDS_Detection_System/PDS_Detection_System/dlib/bigint/bigint_kernel_1.cpp:973-1010 | the sum with one digit; a full record is enough room when the sum fits |
| `RecordShort.ShortSub` | PDS_Detection_System/PDS_Detection_System/dlib/bigint/bigint_kernel_1.cpp:1015-1060 | the difference with one digit, canonical |
| `RecordShort.ShortMul` | PDS_Detection_System/PDS_Detection_System/dlib/bigint/bigint_kernel_1.cpp:1064-1106 | the product with one digit; canonical exactly when the digit is not 0 or the number has one digit |
| `RecordShort.ShortDiv` | PDS_Detection_System/PDS_Detection_System/dlib/bigint/bigint_kernel_1.cpp:1111-1158 | quotient and remainder by one digit, canonical, in place if wanted |
| `RecordShort.Increment` | PDS_Detection_System/PDS_Detection_System/dlib/bigint/bigint_kernel_1.cpp:1618-1663 | the carry stops where it is absorbed and the rest is copied |
| `RecordShort.Decrement` | PDS_Detection_System/PDS_Detection_System/dlib/bigint/bigint_kernel_1.cpp:1667-1716 | the borrow likewise, and a leading zero is dropped |
| `Shifts.OrDisjoint` | PDS_Detection_System/PDS_Detection_System/dlib/bigint/bigint_kernel_1.cpp:1489-1500 | or-ing numbers without a common bit is adding them |
| `Shifts.ShiftedNumber` | PDS_Detection_System/PDS_Detection_System/dlib/bigint/bigint_kernel_1.cpp:1463-1504 | the shifted digits stand for the number times a power of two |
| `Shifts.ShiftLeft` | PDS_Detection_System/PDS_Detection_System/dlib/bigint/bigint_kernel_1.cpp:1463-1504 | times a power of two, in place if wanted; canonical exactly when the number is not 0 or no whole digit is shifted in |
| `Shifts.ShiftRight` | PDS_Detection_System/PDS_Detection_System/dlib/bigint/bigint_kernel_1.cpp:1508-1542 | half the number, canonical |
| `LongMul.AllBits` | PDS_Detection_System/PDS_Detection_System/dlib/bigint/bigint_kernel_1.cpp:1442-1455 | a digit is the sum of its bits |
| `LongMul.MulLoop` | PDS_Detection_System/PDS_Detection_System/dlib/bigint/bigint_kernel_1.cpp:1437-1458 | the loop over digits and bits, with shifts accumulated over runs of zero bits, gives the product within the allocated digits |
| `LongMul.LongMultiply` | PDS_Detection_System/PDS_Detection_System/dlib/bigint/bigint_kernel_1.cpp:1404-1459 | the product of any canonical operands, canonical, also for a square |
| `LongDiv.RaiseAbove` | PDS_Detection_System/PDS_Detection_System/dlib/bigint/bigint_kernel_1.cpp:1348-1353 | the first alignment loop ends with the shifted divisor above the dividend |
| `LongDiv.LowerBelow` | PDS_Detection_System/PDS_Detection_System/dlib/bigint/bigint_kernel_1.cpp:1354-1359 | the second ends with it at most one step away, so the subtract loop starts right |
| `LongDiv.DivideLoop` | PDS_Detection_System/PDS_Detection_System/dlib/bigint/bigint_kernel_1.cpp:1363-1397 | shift and subtract keeps dividend = quotient * divisor + remainder and ends with a remainder below the divisor |
| `LongDiv.LongDivide` | PDS_Detection_System/PDS_Detection_System/dlib/bigint/bigint_kernel_1.cpp:1299-1400 | quotient and remainder of any canonical operands with a nonzero divisor, both canonical, no write outside the digits |
| `BigInts.Store.MovedCounts` | PDS_Detection_System/PDS_Detection_System/dlib/bigint/bigint_kernel_1.cpp:84-111 | moving one handle to a new record keeps every count equal to the number of handles on the record |
| `BigInts.Store.CopyHandle` | PDS_Detection_System/PDS_Detection_System/dlib/bigint/bigint_kernel_1.cpp:42-50 | a copy shares the record and is counted |
| `BigInts.Store.Destroy` | PDS_Detection_System/PDS_Detection_System/dlib/bigint/bigint_kernel_1.cpp:53-66 | a record is freed exactly when its last handle leaves |
| `BigInts.Store.Assign` | PDS_Detection_System/PDS_Detection_System/dlib/bigint/bigint_kernel_1.cpp:309-333 | assignment shares the record, frees the old one exactly when nobody else has it, and survives x = x |
| `BigInts.Store.AddAssign` | PDS_Detection_System/PDS_Detection_System/dlib/bigint/bigint_kernel_1.cpp:84-111 | x += y, also x += x, changes no other handle |
| `BigInts.Store.SubAssign` | PDS_Detection_System/PDS_Detection_System/dlib/bigint/bigint_kernel_1.cpp:129-147 | x -= y, also x -= x, changes no other handle |
| `BigInts.Store.MulAssign` | PDS_Detection_System/PDS_Detection_System/dlib/bigint/bigint_kernel_1.cpp:165-185 | x *= y, also x *= x, changes no other handle |
| `BigInts.Store.DivAssign` | PDS_Detection_System/PDS_Detection_System/dlib/bigint/bigint_kernel_1.cpp:209-238 | x /= y, also x /= x, changes no other handle |
| `BigInts.Store.ModAssign` | PDS_Detection_System/PDS_Detection_System/dlib/bigint/bigint_kernel_1.cpp:260-286 | x %= y, also x %= x, changes no other handle |
| `BigInts.Store.ShortAddAssign` | PDS_Detection_System/PDS_Detection_System/dlib/bigint/bigint_kernel_1.cpp:546-573 | adding one digit detaches a shared record first |
| `BigInts.Store.ShortMulAssign` | PDS_Detection_System/PDS_Detection_System/dlib/bigint/bigint_kernel_1.cpp:659-685 | multiplying by one digit detaches a shared record first |
| `BigInts.Store.ShortSubAssign` | PDS_Detection_System/PDS_Detection_System/dlib/bigint/bigint_kernel_1.cpp:607-625 | taking away one digit detaches a shared record first |
| `BigInts.Store.AssignDigit` | PDS_Detection_System/PDS_Detection_System/dlib/bigint/bigint_kernel_1.cpp:856-877 | assigning one digit detaches a shared record first and otherwise reuses the record |
| `BigInts.Store.PreIncrement` | PDS_Detection_System/PDS_Detection_System/dlib/bigint/bigint_kernel_1.cpp:881-907 | adding one detaches a shared record first |
| `BigInts.Store.PostIncrement` | PDS_Detection_System/PDS_Detection_System/dlib/bigint/bigint_kernel_1.cpp:911-925 | the old value is kept by the handle returned and the operand moves on |
| `BigInts.Store.PreDecrement` | PDS_Detection_System/PDS_Detection_System/dlib/bigint/bigint_kernel_1.cpp:929-947 | taking away one detaches a shared record first |
| `BigInts.Store.PostDecrement` | PDS_Detection_System/PDS_Detection_System/dlib/bigint/bigint_kernel_1.cpp:951-965 | the old value is kept by the handle returned and the operand moves down |
| `Decimal.NumberOfNumeral` | PDS_Detection_System/PDS_Detection_System/dlib/bigint/bigint_kernel_1.cpp:337-419 | the decimal numeral of a number, of the characters 0 to 9 in their places, stands for it |
| `Decimal.Print` | PDS_Detection_System/PDS_Detection_System/dlib/bigint/bigint_kernel_1.cpp:337-419 | printing gives the numeral, within five characters a digit and ten more |
| `Decimal.NumeralHasNoLeadingZeros` | PDS_Detection_System/PDS_Detection_System/dlib/bigint/bigint_kernel_1.cpp:402-414 | the numeral starts with 0 only for 0 |
| `Decimal.ReadGroup` | PDS_Detection_System/PDS_Detection_System/dlib/bigint/bigint_kernel_1.cpp:448-496 | up to four digits and the power of ten they make room for |
| `Decimal.Parse` | PDS_Detection_System/PDS_Detection_System/dlib/bigint/bigint_kernel_1.cpp:423-512 | parsing skips blanks, reads all the digits there are and stops after the last, and fails without touching the number if there are none |
| `Decimal.BlanksAreSkipped` | PDS_Detection_System/PDS_Detection_System/dlib/bigint/bigint_kernel_1.cpp:430-434 | a prefix of spaces, tabs and line feeds before a numeral is skipped, all of it and nothing else, and the number is read |
| `Decimal.PrintedReadsBack` | PDS_Detection_System/PDS_Detection_System/dlib/bigint/bigint_kernel_1.cpp:337-512 | a printed number followed by a non-digit or by nothing reads back as itself and exactly its digits are consumed |
| `Sniffer.SnapshotKeepsExclusive` | main/wifi_sniff_main.c:177-185 | Peterson's argument over the steps of the timer task, with the two reads of the guard apart |
| `Sniffer.CountKeepsExclusive` | main/wifi_sniff_main.c:610-617 | the same over the steps of the packet callback |
| `Sniffer.SnapshotKeepsCounts` | main/wifi_sniff_main.c:182-183 | taking and clearing the counter in two steps loses no count |
| `Sniffer.CountKeepsCounts` | main/wifi_sniff_main.c:615-615 | incrementing it by a load and a store loses none either, with wrap-around at 256 |
| `Sniffer.SenderIsBehind` | main/wifi_sniff_main.c:641-650 | while a batch is being sent its front node is not the node the callback is filling |
| `Sniffer.WriteKeepsList` | main/wifi_sniff_main.c:641-643 | sending a packet moves it from the front of the list to what was sent, takes one from what is pending, and goes on to its link |
| `Sniffer.FreeKeepsList` | main/wifi_sniff_main.c:645-647 | freeing the node that was sent leaves the list alone |
| `Sniffer.LinkKeepsList` | main/wifi_sniff_main.c:602-605 | linking the new node makes exactly the packet in the old tail part of the list |
| `Sniffer.UploadKeepsList` | main/wifi_sniff_main.c:469-655 | every step of an upload keeps the list; a failed call before any packet is out leads to another attempt, the third to rest |
| `Sniffer.CaptureKeepsList` | main/wifi_sniff_main.c:598-606 | every step of a capture keeps the list, also when malloc fails |
| `Sniffer.StepKeepsInv` | main/wifi_sniff_main.c:168-655 | every step of either context keeps the invariant and touches allocated memory only |
| `Sniffer.EveryRunIsSafe` | main/wifi_sniff_main.c:168-655 | in every interleaving: mutual exclusion; completed increments = snapshots + count modulo 256; packets sent, then the list, are the captured packets in order; the list holds the unsent snapshot and what was counted since; no access to freed memory; and the sender's node is never the callback's, while writing to it, reading its link and freeing it |
| `Sniffer.MidBatchFailureFaults` | main/wifi_sniff_main.c:639-651 | from every state of the invariant at the start of a batch of two or more: if the second write fails, head is left on a freed node and the next attempt starts from it |
| `Delivery.NothingLost` | main/wifi_sniff_main.c:587-606 | for every run: what was written to the network, then the list, then the packet on its way to it, are the packets that the radio delivered and malloc found room for, in order |
| `Delivery.UploadEnds` | main/wifi_sniff_main.c:469-655 | for every run and every step that ends an upload: if fewer than three network calls of the upload failed, exactly as many packets as the last snapshot took have been written since it; if three failed, this call was the third and none was written; nothing is pending at rest otherwise |
| `Delivery.KeepsTrying` | main/wifi_sniff_main.c:478-491 | for every run: a failed network call that is not the third of its upload is followed by another attempt with everything still pending, the third by rest |
| `Delivery.NothingLeaks` | main/wifi_sniff_main.c:598-648 | for every run: every node in use is in the list, being let go by the sender, or just made by the callback |
| `Progress.WorkIsBounded` | main/wifi_sniff_main.c:168-655 | for every run: between two rests the timer task makes at most 2311 steps that are not spins |
| `Progress.CaptureIsBounded` | main/wifi_sniff_main.c:587-617 | for every run: the callback makes at most 11 steps that are not spins for a packet after the one that stores it |
| `Progress.SpinsOnTheOther` | main/wifi_sniff_main.c:177-180 | the two never spin at the same time, and who has to look at its guard again waits for the other, who is on the way through its critical section |
| `Progress.OvertakenOnce` | main/wifi_sniff_main.c:610-613 | for every run: at its guard the timer task is overtaken by the callback at most once |
| `Batches.StepKeepsSound` | main/wifi_sniff_main.c:168-655 | once the first packet of a batch is out, head is not among the unsent nodes, and every step that is not a failed write inside a batch keeps that |
| `Batches.StepKeepsListIff` | main/wifi_sniff_main.c:639-651 | from every such state no step touches freed memory, and the step leaves the list whole if and only if it is not a write that fails inside a batch |
| `Batches.ListedIffRegular` | main/wifi_sniff_main.c:168-655 | for every run from the start: the list is whole all along if and only if no write fails inside a batch |
| `Batches.CountsWhateverFails` | main/wifi_sniff_main.c:177-185 | mutual exclusion and the count hold in every run, whatever fails, as far as it gets |
| `Batches.FailedWriteFaults` | main/wifi_sniff_main.c:639-651 | a complete run from the start, two captures, a snapshot, a connection, a write that succeeds and one that fails, after which the next attempt reads freed memory |
| `Firmware.Board.Snapshot` | main/wifi_sniff_main.c:177-185 | the assignments of the timer task to the globals are the steps of the protocol |
| `Firmware.Board.Write` | main/wifi_sniff_main.c:639-651 | so are those of the sender |
| `Firmware.Board.Capture` | main/wifi_sniff_main.c:598-606 | and those of the callback |
| `Firmware.Board.Play` | main/wifi_sniff_main.c:168-655 | a whole interleaving on the globals, keeping the invariant |
| `Ordering.CameFrom` | PDS_Detection_System/PDS_Detection_System/dlib/sort.h:24-37 | in a rearranged range every element comes from the range |
| `InsertionSort.NeighbourSwapStable` | PDS_Detection_System/PDS_Detection_System/dlib/sort.h:413-416 | exchanging neighbours that are out of order keeps every class of equivalent elements in order |
| `InsertionSort.IsortArray` | PDS_Detection_System/PDS_Detection_System/dlib/sort.h:395-422 | insertion sort: sorted, a permutation of the range, nothing else touched, stable |
| `HeapSort.SiftStep` | PDS_Detection_System/PDS_Detection_System/dlib/sort.h:318-338 | one exchange on the way down keeps the heap but for the new hole |
| `HeapSort.Heapify` | PDS_Detection_System/PDS_Detection_System/dlib/sort.h:286-339 | with the root at `start`: a heap from i on, from heaps after i |
| `HeapSort.RootIsLargest` | PDS_Detection_System/PDS_Detection_System/dlib/sort.h:477-482 | the root of a heap is a largest element |
| `HeapSort.BuildHeap` | PDS_Detection_System/PDS_Detection_System/dlib/sort.h:469-475 | the range becomes a heap |
| `HeapSort.HsortArray` | PDS_Detection_System/PDS_Detection_System/dlib/sort.h:451-483 | heapsort: sorted, a permutation, nothing else touched; stable below 30 elements, where insertion sort does it |
| `QuickSort.QsortPartition` | PDS_Detection_System/PDS_Detection_System/dlib/sort.h:184-228 | the pivot is in its place, smaller elements before it and no smaller one after it |
| `QuickSort.JoinSplit` | PDS_Detection_System/PDS_Detection_System/dlib/sort.h:267-275 | sorting the two sides of a split sorts the whole |
| `QuickSort.QsortArrayMain` | PDS_Detection_System/PDS_Detection_System/dlib/sort.h:236-278 | for every strict weak order and every range: sorted, a permutation, nothing else touched, no deeper than the budget allows |
| `QuickSort.QsortArray` | PDS_Detection_System/PDS_Detection_System/dlib/sort.h:430-443 | the same from the entry point, with the budget right - left |
| `QuickSort.LevelsLogarithmic` | PDS_Detection_System/PDS_Detection_System/dlib/sort.h:265-268 | the budget shrinks to at most 17/32 a level, so the depth is logarithmic with base 32/17 |
| `QuickSort.LoweredIs` | PDS_Detection_System/PDS_Detection_System/dlib/sort.h:265-268 | one level takes the budget to 17/32 of it, up to rounding |
| `Base64.Sextets` | PDS_Detection_System/PDS_Detection_System/dlib/base64/base64_kernel_1.cpp:214-232 | the four characters of a group are the base-64 digits of its 24 bits |
| `Base64.LetterValue` | PDS_Detection_System/PDS_Detection_System/dlib/base64/base64_kernel_1.cpp:139-147 | the letter of a number decodes to the number and is neither the equals sign nor a line break |
| `Base64.UngroupGroup` | PDS_Detection_System/PDS_Detection_System/dlib/base64/base64_kernel_1.cpp:334-373 | decoding a group gives back its one, two or three bytes |
| `Base64.KeptEncoded` | PDS_Detection_System/PDS_Detection_System/dlib/base64/base64_kernel_1.cpp:377-382 | the decoder takes exactly the groups and drops the line breaks, for CR, LF and CRLF |
| `Base64.RoundTrip` | PDS_Detection_System/PDS_Detection_System/dlib/base64/base64_kernel_1.cpp:163-396 | decoding the encoding of any bytes with any line ending gives them back with nothing left over |
| `Base64.EncodedLinesFit` | PDS_Detection_System/PDS_Detection_System/dlib/base64/base64_kernel_1.cpp:178-212 | no encoded line is longer than 76 characters |
| `Base64.EncodedIsText` | PDS_Detection_System/PDS_Detection_System/dlib/base64/base64_kernel_1.cpp:163-305 | the same of the encoding of any bytes |
| `Base64.TakenIs` | PDS_Detection_System/PDS_Detection_System/dlib/base64/base64_kernel_1.cpp:322-323 | for any character: the decoder takes it if it is one of the alphabet, or an equals sign that does not come first of all |
| `Base64.UngroupIs` | PDS_Detection_System/PDS_Detection_System/dlib/base64/base64_kernel_1.cpp:334-373 | for any four characters of the alphabet, with one or two equals signs at the end: the three, two or one bytes of their 24 bits |
| `Base64.Coder.constructor` | PDS_Detection_System/PDS_Detection_System/dlib/base64/base64_kernel_1.cpp:35-148 | entry i of the encode table is character i of the alphabet written out, and the decode table has its number for each of these characters and 100 for every other |
| `Base64.Coder.Encode` | PDS_Detection_System/PDS_Detection_System/dlib/base64/base64_kernel_1.cpp:163-305 | the streaming loop writes lines of exactly 76 characters and a last one of at most 76, between them the bytes 13, 10 or 13 10 of the chosen style, and in all of them the text whose character i is given by six bits of its group of three bytes or is an equals sign |
| `Base64.Coder.Decode` | PDS_Detection_System/PDS_Detection_System/dlib/base64/base64_kernel_1.cpp:310-396 | for any input without byte 255: the bytes of the complete groups, and how many characters are left over, which is the error |
| `Framing.OctetsNumber` | PDS_Detection_System/PDS_Detection_System/dlib/serialize.h:286-291 | the little-endian bytes of a number stand for it |
| `Framing.OctetsLength` | PDS_Detection_System/PDS_Detection_System/dlib/serialize.h:286-291 | a number takes no more bytes than its size asks for |
| `Framing.PackIs` | PDS_Detection_System/PDS_Detection_System/dlib/serialize.h:286-296 | what is written for an integer: one byte with the number of bytes that follow, plus 128 exactly when it is negative, then its absolute value, byte k weighing 256 to the power of k, no zero at the end but for 0; and no other bytes are of that form |
| `Framing.PackExamples` | PDS_Detection_System/PDS_Detection_System/dlib/serialize.h:286-296 | 5, 0, -300 and 65536 byte by byte |
| `Framing.UnpackIs` | PDS_Detection_System/PDS_Detection_System/dlib/serialize.h:331-377 | for any control byte and any bytes after it: refused exactly when the number of bytes is 0, too large for the type or more than there are, or a sign meets an unsigned type; otherwise the weighted sum of the bytes, negated if the sign is set, up to a multiple of the range of the type; three bits of the control byte do not matter |
| `Framing.UnpackPack` | PDS_Detection_System/PDS_Detection_System/dlib/serialize.h:254-486 | a packed integer reads back as any integral type exactly when it fits there, whatever follows, and a negative one is refused by unsigned types |
| `Framing.FilledInOrder` | PDS_Detection_System/PDS_Detection_System/dlib/serialize.h:908-978 | inserting the elements of a set or map in order gives it back |
| `Framing.ReadsBack` | PDS_Detection_System/PDS_Detection_System/dlib/serialize.h:853-1199 | for every nesting of vectors, sets, maps, pairs, strings and integers: deserializing the bytes of a value followed by any others gives the value and leaves exactly the others |
| `Framing.Unambiguous` | PDS_Detection_System/PDS_Detection_System/dlib/serialize.h:853-1199 | no two values share their bytes, and none is a prefix of another's |
| `Grammar.WrittenIs` | PDS_Detection_System/PDS_Detection_System/dlib/serialize.h:853-1053 | the grammar of what is written, and that what is serialized is in it and nothing else: an integer by itself, a text as its size and its characters, a pair as its first part and its second, a container as its size and its elements in order |
| `Grammar.ReadsExactly` | PDS_Detection_System/PDS_Detection_System/dlib/serialize.h:868-1199 | for all bytes, well formed or not: they are read as a value, and some bytes are left, exactly when they are a form that the grammar lets stand for the value, followed by those bytes |
| `Containers.FilledIs` | PDS_Detection_System/PDS_Detection_System/dlib/serialize.h:916-978 | a set or map filled from elements in any order and with repetitions: its keys are in increasing order, and for each key it has the first of the elements, in a map with the second part of the last |
| `Streams.PackInt` | PDS_Detection_System/PDS_Detection_System/dlib/serialize.h:254-302 | the buffer loop writes the control byte and the bytes: what is written has the form stated in PackIs |
| `Streams.UnpackInt` | PDS_Detection_System/PDS_Detection_System/dlib/serialize.h:304-378 | the control byte checks and the shift loop, with truncation to the type, in both versions |
| `Streams.Serialize` | PDS_Detection_System/PDS_Detection_System/dlib/serialize.h:853-1053 | the routines write exactly the bytes that the grammar says are written for the value |
| `Streams.Deserialize` | PDS_Detection_System/PDS_Detection_System/dlib/serialize.h:868-1199 | and read exactly what the format says, or fail |
| `Streams.DeserializeItems` | PDS_Detection_System/PDS_Detection_System/dlib/serialize.h:916-928 | elements are stored, inserted or assigned one by one |
| `Segments.TurnIsSign` | PDS_Detection_System/PDS_Detection_System/CoverageArea.cpp:51-58 | an orientation is right exactly when the conversion to int keeps the sign |
| `Segments.LinesCross` | PDS_Detection_System/PDS_Detection_System/CoverageArea.cpp:71-73 | ends on different sides both ways: the segments share a point |
| `Segments.InBoxIsOn` | PDS_Detection_System/PDS_Detection_System/CoverageArea.cpp:36-44 | a collinear point in the bounding box is on the segment, also when it is one point |
| `Segments.CollinearOverlap` | PDS_Detection_System/PDS_Detection_System/CoverageArea.cpp:75-86 | collinear segments that meet have an end of one on the other |
| `Segments.DecideIsShare` | PDS_Detection_System/PDS_Detection_System/CoverageArea.cpp:62-89 | on exact orientations the decision is right for all real points |
| `Segments.ExactlyWhenWrong` | PDS_Detection_System/PDS_Detection_System/CoverageArea.cpp:62-89 | exactly when the code is wrong, both ways: a hit without a shared point and a miss of a shared point, each as a condition on the four cross products, cut and uncut, and the bounding boxes |
| `Segments.DoIntersectIsShare` | PDS_Detection_System/PDS_Detection_System/CoverageArea.cpp:62-89 | in particular the code is right whenever no cross product other than 0 is below 1 in size |
| `Segments.WholeCoordinates` | PDS_Detection_System/PDS_Detection_System/CoverageArea.cpp:62-89 | with integer coordinates it returns true if and only if the closed segments share a point |
| `Segments.WholeVerticesNeverMiss` | PDS_Detection_System/PDS_Detection_System/CoverageArea.cpp:106-117 | in the only call, with a ray to x = 10000: on integer vertices a side that the ray meets is never missed, for any point up to x = 9998 |
| `Segments.TruncationMisleads` | PDS_Detection_System/PDS_Detection_System/CoverageArea.cpp:106-117 | both kinds of mistake in that call: a false hit on integer vertices, and a miss on other vertices |
| `ReadyBarrier.PassingIsFair` | PDS_Detection_System/PDS_Detection_System/TCPServer.cpp:326-327 | the first thread that finds the counter at zero finds that every thread has counted |
| `ReadyBarrier.StepKeepsHeard` | PDS_Detection_System/PDS_Detection_System/TCPServer.cpp:316-327 | no waiter misses the notification that ends the countdown |
| `ReadyBarrier.RunKeepsInv` | PDS_Detection_System/PDS_Detection_System/TCPServer.cpp:293-346 | the invariant holds over whole runs |
| `ReadyBarrier.NoEarlyReply` | PDS_Detection_System/PDS_Detection_System/TCPServer.cpp:316-346 | in every interleaving, with spurious wake-ups, failures and resets, no thread answers READY before READY has come to every thread and was counted |
| `ReadyBarrier.CountsReceived` | PDS_Detection_System/PDS_Detection_System/TCPServer.cpp:307-318 | for every run: a thread has counted exactly the READY messages that came to it, but for one that is about to be counted; other messages are not counted |
| `ReadyBarrier.NotifyWakesAll` | PDS_Detection_System/PDS_Detection_System/TCPServer.cpp:319-319 | a notification leaves no thread blocked on the condition variable |
| `ReadyBarrier.ZeroStays` | PDS_Detection_System/PDS_Detection_System/TCPServer.cpp:318-318 | in runs without resets the counter never goes below zero and stays at zero once there |
| `ReadyBarrier.WithoutResets` | PDS_Detection_System/PDS_Detection_System/TCPServer.cpp:293-346 | so in those runs nobody stays blocked once the countdown is over |
| `ReadyBarrier.BelowZeroIsFinal` | PDS_Detection_System/PDS_Detection_System/TCPServer.cpp:326-327 | a counter below zero never comes back: who is not answering by then never will |
| `ReadyBarrier.ResetLocksOut` | PDS_Detection_System/PDS_Detection_System/TCPServer.cpp:333-337 | from every state of the invariant with the countdown over: if the answer of a thread is reset and it counts again at once, the counter is -1 and no thread not answered by then ever is |
| `Lockout.BelowZeroIffTwice` | PDS_Detection_System/PDS_Detection_System/TCPServer.cpp:316-337 | for every run from the start: the counter is below zero if and only if some thread has counted twice |
| `Lockout.AnswerableIff` | PDS_Detection_System/PDS_Detection_System/TCPServer.cpp:293-346 | for every run from the start and every thread not answered yet: some continuation answers it if and only if the countdown can still be found at zero (it is not below, at zero no decrement is under way, no thread stopped before counting) and the thread has neither stopped nor come back after a reset |
| `Lockout.LostStays` | PDS_Detection_System/PDS_Detection_System/TCPServer.cpp:326-337 | a thread that cannot be answered stays so in every continuation |
| `Lockout.StoppedIff` | PDS_Detection_System/PDS_Detection_System/TCPServer.cpp:302-362 | for every run from the start: a thread has stopped exactly when its connection broke while it listened or answered, so never because a message was ignored or an answer reset |
| `Lockout.NobodyLockedOut` | PDS_Detection_System/PDS_Detection_System/TCPServer.cpp:293-350 | for every run from the start in which no connection breaks and no answer is reset, whatever messages are ignored: if everything works from then on, all threads are answered in some continuation |
| `Lockout.ResetRunLocksOut` | PDS_Detection_System/PDS_Detection_System/TCPServer.cpp:333-337 | a run of two threads from the start with one reset, after which the counter is -1 and neither thread is answered in any continuation |
| `ReadyBarrier.ReadyChannel.Move` | PDS_Detection_System/PDS_Detection_System/TCPServer.cpp:293-346 | the assignments to the shared fields are the steps of the protocol |
| `ReadyBarrier.ReadyChannel.Play` | PDS_Detection_System/PDS_Detection_System/TCPServer.cpp:293-346 | a whole interleaving on the fields, keeping the invariant |
| `Utf8.CheckSSID` | PDS_Detection_System/PDS_Detection_System/ProbePacket.cpp:116-136 | the index-advancing loop accepts exactly what splits into units from the left |
| `Utf8.AcceptsIsJoined` | PDS_Detection_System/PDS_Detection_System/ProbePacket.cpp:116-136 | that is, exactly the concatenations of units: a byte below 80; C0 to DF and one byte from 80 to BF; E0 to EF and two of them, other than ED followed by A0 to BF; F0 to F7 and three |
| `Utf8.UnitIs` | PDS_Detection_System/PDS_Detection_System/ProbePacket.cpp:116-133 | what the masks of the code make of these ranges |
| `Utf8.AcceptsEncodings` | PDS_Detection_System/PDS_Detection_System/ProbePacket.cpp:116-136 | the encoding of every sequence of Unicode scalar values is accepted, section 3 of RFC 3629 |
| `Utf8.ValidIsTight` | PDS_Detection_System/PDS_Detection_System/ProbePacket.cpp:122-132 | what is accepted is valid UTF-8 exactly when no byte starts an overlong form or a number above 10FFFF |
| `Utf8.OverlongAccepted` | PDS_Detection_System/PDS_Detection_System/ProbePacket.cpp:123-123 | C0 80 is accepted and is not valid |

## Left out

- Sockets, timers, flash storage, Wi-Fi events, named pipes, logging, the database and the WPF
  windows: input and output; only the choices they leave to the program (a connection fails, a write
  fails, a message arrives) are modelled, as arguments of the steps.
- Floating point: probabilities and coordinates are real numbers, so rounding is not modelled; in
  `Segments` neither is overflow of the conversion to int.
- The triangulation of the graph, `create_join_tree`, the tests that `is_join_tree` makes (their
  outcome is `Network.Valid` and `PathCondition`) and the Gibbs sampler.
- Inference.HousedIsNotClipped: needs rows of the conditional probability tables that sum to at most 1; with
  the tolerance of 1e-5 that the code allows, a sum a little above 1 may be cut.
- Inference.FinalIsExact: the same.
- Construction.Create: the same, for the exactness; termination and `Finished` need nothing of the rows.
- Posterior.Distribution: 0 divided by 0 is reported as undefined instead of as a NaN.
- The order in which tables are stored: two tables walked side by side have the same keys, and the
  proofs that they do replace the walk by look-ups.
- Big integers: division by zero, subtraction below zero, `x *= 0` with a short operand, `x /= y` and
  `x %= y` with a short `y`, the operators that return new objects other than `x++` and `x--`, and
  serialization of big integers; freed records are only removed from the store.
- BigInts.Store.ShortMulAssign: asks for a nonzero factor, because a zero factor leaves leading zeros.
- Weak memory, and liveness of the waiting, retry and receive loops of the firmware; what the server
  answers after an upload; the fields of a packet are taken as they are, with `hash` uninterpreted.
- Sniffer.EveryRunIsSafe: assumes that writes fail only before the first packet of a batch;
  `Batches.ListedIffRegular` shows that this is needed.
- Sniffer.StepKeepsInv: the same.
- Sniffer.UploadKeepsList: the same.
- Firmware.Board.Play: the same.
- LongDiv.LongDivide: asks for room for one digit more than the comment on `long_div`, because the code
  writes there.
- `unsigned long` overflow of array indices in the sorting routines.
- Base64.Coder.Decode: input bytes are not 255, for which the decode table has no entry.
- Framing.UnpackPack: the least value of a signed type is not packed, because its negation overflows; reading
  uses two's complement truncation.
- Streams.PackInt: the same.
- Serialization of floating-point numbers, `bool`, wide strings, `deque`, arrays, `vector<bool>` and
  `vector<char>`, and of the state of a stream after a failed read; containers have fewer than 2^32
  elements.
- `CoverageArea::isInside`: with rays through vertices and truncated coordinates it is not a general
  point-in-polygon test.
- The `esp_to_wait` counter and the triangulation thread; the start of the server other than the READY
  barrier.
- Calls of `recv` that return part of a READY message: a message arrives as a whole.
