# Sorted listings and find expressions, modelled in Dafny

This project models the core of a student re-implementation of `ls` and
`find` written in C (repository CSCI347-UNIX-Systems-Programming). It covers
these parts:

- **The sort tree** (`autotools/bst.c`): a red-black binary tree that keeps
  directory entries ordered by a two-level key. The key is the lower-cased
  name compared with `strcoll`, with the name itself as the tie-break. The
  tree writes its entries out in order.
- **The growable arrays** (`autotools/dir_arr.c`, `autotools/f_list.c`):
  arrays that double in size as they fill, then sort themselves with a
  randomised quicksort under the same key.
- **The sorted linked lists of `ls` and of `find`** (`autotools/ls_src/list.c`,
  `autotools/find_src/list.c`): lists that insert each new name in order and
  reject duplicates.
- **The helpers of `ls -l`** (`autotools/ls_src/long_out.c`,
  `autotools/ls_src/ls.c`, `autotools/ls_src/print_utils.c`): the mode
  string, column widths, decimal widths and path joining.
- **The `find` expression** in its three generations:
  - the current parser and evaluator (`expression.c`,
    `expression_prim_parse.c`, `expression_prim_eval.c`);
  - the middle evaluator (`expression_prim.c`);
  - the earliest primary layer (`expression_primaries.c`);
  - the first draft, kept in `lost_fucking_souls/`.

  An expression is a list of primaries: `-cnewer`, `-cmin`, `-ctime`,
  `-mmin`, `-mtime`, `-type` and (in the later generations) `-exec`. The
  expression holds of a file when every primary holds.

Each C module becomes one Dafny module:

- Code that changes state step by step becomes a class or an array with
  methods, loops and invariants. These are proved against specification
  functions.
- Pure code becomes functions and lemmas.

Shared definitions have their own modules:

- `Base`: NULL as `Option`, `tolower`, and C's truncating `/` and `%`.
- `Collation`: the two-level key over an abstract `strcoll`.
- `OrderedList`: insertion into an ordered sequence.
- `Quicksort`: the in-place sort both arrays use.
- `Mode`: `st_mode` bits.
- `CString`: `strncmp` and `strtol`.
- `FindCommon`: the time and type tests the `find` generations share.

Outside influences are parameters of the model:

- **Allocation:** each `malloc` outcome is a boolean verdict, or a function
  from position to verdict.
- **`stat`:** a function from path to an optional `Stat`.
- **The clock:** `clock_gettime` is an optional number of seconds.
- **`rand()`:** its value is a bounded parameter.
- **Running a command** (`fork`/`exec`/`waitpid`): a function from the word
  list to its success.
- **Output:** each write to a stream has a verdict.
- **`strcoll`:** a function assumed only to be a strict total order; the
  C locale's `strcmp` is proved to be one.

## Model

| member | source | states |
|---|---|---|
| Base.ToLower | autotools/dir_arr.c:22-24 | `tolower` in the C locale: an upper-case ASCII letter moves up by 32, and every other character is unchanged |
| Base.LowerString | autotools/ls_src/list.c:164-178 | the lower-cased copy has the same length, and each character is the `tolower` of the one at the same position |
| Base.LowerStringCopy | autotools/ls_src/list.c:164-178 | `lower_string_cpy` returns NULL exactly when its `malloc` fails; otherwise its loop returns the lower-cased copy of the whole string |
| Base.LowerStringFixesLower | autotools/ls_src/list.c:172-174 | lower-casing a string with no upper-case letter returns it unchanged |
| Base.LowerStringIdempotent | autotools/ls_src/list.c:172-174 | lower-casing twice gives the same result as lower-casing once |
| Base.CDivPositiveDivisor | autotools/find_src/lost_fucking_souls/expression_defs.c:17-22 | C's truncating `/` and `%` by a positive divisor: for a negative dividend the quotient rounds up, `a == q*b + r`, and the remainder has the sign of the dividend |
| Base.CDivNonNegative | autotools/find_src/lost_fucking_souls/expression_defs.c:17-22 | for a non-negative dividend, C division agrees with Euclidean division |
| Base.CDiv | autotools/find_src/lost_fucking_souls/expression_defs.c:17 | C's `/` on ints, truncating toward zero (a definition with no contract of its own; `CDivPositiveDivisor` and `CDivNonNegative` prove what the time code relies on) |
| Base.CMod | autotools/find_src/lost_fucking_souls/expression_defs.c:18 | C's `%`: what is left after `CDiv` whole divisors, with the dividend's sign (a definition; `CDivPositiveDivisor` proves its range for a positive divisor) |
| Collation.KeyOf | autotools/bst.c:31-57 | the key `make_key` builds: `cmp_char` is the lower-cased name, of the same length, and `cmp_case` is the name itself |
| Collation.KeyOrder | autotools/dir_arr.c:6-11 | `key_order` (also `f_list.c:13-18`, `bst.c:22-27`): `strcoll` of the lower-cased names, and of the names on a tie (a definition; `KeyOrderZeroIff`, `KeyOrderPrimaryFirst` and `KeyOrderAntisymmetric` prove its meaning) |
| Collation.KeyLess | autotools/dir_arr.c:119 | the comparison `key_order(...) < 0` the sorts and the walks make (a definition; `KeyLessTransitive` and `KeyLessTotal` prove it a strict total order) |
| Collation.KeyOrderZeroIff | autotools/bst.c:22-27 | for a collation that is a strict total order, `key_order` is 0 exactly when the two keys are equal |
| Collation.KeyOrderPrimaryFirst | autotools/bst.c:22-27 | when the lower-cased names differ, they alone decide the order |
| Collation.KeyOrderAntisymmetric | autotools/bst.c:22-27 | `key_order(a, b) < 0` exactly when `key_order(b, a) > 0` |
| Collation.KeyLessTransitive | autotools/dir_arr.c:6-11 | the "less than" that `key_order` induces is transitive |
| Collation.KeyLessTotal | autotools/f_list.c:13-18 | two distinct keys are always ordered one way or the other |
| Collation.KeyOfInjective | autotools/bst.c:31-57 | two names have the same key exactly when the names are equal, so `cmp_case` breaks every tie |
| Collation.ByteCompare | autotools/dir_arr.c:7-9 | `strcoll` in the C locale (a byte-wise `strcmp`) returns -1, 0 or 1 |
| Collation.ByteCompareZero | autotools/dir_arr.c:7-9 | the byte-wise comparison is 0 exactly on equal strings |
| Collation.ByteCompareFlip | autotools/dir_arr.c:7-9 | swapping the arguments negates the byte-wise comparison |
| Collation.ByteCompareTransitive | autotools/dir_arr.c:7-9 | the byte-wise comparison is transitive |
| Collation.ByteOrderIsStrictTotal | autotools/dir_arr.c:7-9 | the C locale's collation meets the strict-total-order assumption the rest of the model makes of `strcoll` |
| OrderedList.Splice | autotools/ls_src/list.c:69-84 | linking a node in at position k: the result is one longer and holds the new node at k, with the old nodes before and after it in order |
| OrderedList.Stop | autotools/ls_src/list.c:69-84 | the walk of `list_add_ordered` stops at the first node from c on that is not smaller than the new one; every node it passes is smaller |
| OrderedList.KeyOrderFlip | autotools/ls_src/list.c:141-157 | `key_order(a, b) <= 0` exactly when `key_order(b, a) >= 0` |
| OrderedList.KeyLeTransitive | autotools/ls_src/list.c:141-157 | "not greater than" under `key_order` is transitive, and strict when either step is strict |
| OrderedList.SpliceNonDecreasing | autotools/ls_src/list.c:69-84 | inserting between a node that is not greater and one that is not smaller keeps a non-decreasing list non-decreasing |
| OrderedList.SpliceIncreasing | autotools/ls_src/list.c:69-84 | inserting strictly between two nodes keeps a strictly increasing list strictly increasing |
| OrderedList.SpliceContents | autotools/ls_src/list.c:69-84 | linking a node in adds exactly that node to the list's contents |
| OrderedList.StopFindsEqual | autotools/ls_src/list.c:69-84 | in a sorted list, the walk stops on a node with the new node's key exactly when such a node exists from c on |
| OrderedList.IncreasingIsNonDecreasing | autotools/ls_src/list.c:69-84 | a strictly increasing list is non-decreasing |
| RbTree.BalancedPathsAgree | autotools/bst.c:153-195 | in a black-balanced tree, every path that ends at a leaf passes the same number of black nodes |
| RbTree.RotateLeft | autotools/bst.c:199-219 | `_bst_left_rotate` keeps the in-order sequence of entries |
| RbTree.RotateRight | autotools/bst.c:223-243 | `_bst_right_rotate` keeps the in-order sequence of entries |
| RbTree.RotationsInverse | autotools/bst.c:199-243 | a right rotation undoes a left rotation, and a left rotation undoes a right one |
| RbTree.InorderPlug | autotools/bst.c:199-243 | a subtree put back under its parents lies between the entries to its left and to its right |
| RbTree.PlugKeepsInorder | autotools/bst.c:199-243 | replacing a subtree with one of the same in-order sequence keeps the whole tree's sequence |
| RbTree.RotationInPlaceKeepsInorder | autotools/bst.c:199-243 | a rotation anywhere in the tree (parent links rethreaded) keeps the whole tree's in-order sequence |
| RbTree.PlugTwo | autotools/bst.c:153-195 | putting a subtree back under two parents is one step at the parent, then one at the grandparent |
| RbTree.PathRedRedFreeExempt | autotools/bst.c:153-195 | a path with no red-red edge still has none once its lowest edge is exempt |
| RbTree.PlugRedRedFree | autotools/bst.c:153-195 | a red-red-free subtree under a red-red-free path gives a red-red-free tree |
| RbTree.PlugBalanced | autotools/bst.c:153-195 | a balanced subtree under a path whose siblings have its black height gives a balanced tree |
| RbTree.PlugColor | autotools/bst.c:153-195 | a subtree put back under a non-empty path takes the colour of that path's root |
| RbTree.RedParentHasBlackGrandparent | autotools/bst.c:155-157 | during the fix-up, a red parent always has a grandparent, and that grandparent is black |
| RbTree.RecolorUncleSound | autotools/bst.c:157-163 | the red-uncle case (recolour the parent, uncle and grandparent, then move up two levels) keeps the fix-up invariant and the in-order sequence |
| RbTree.RotateAtParentSound | autotools/bst.c:165-168 | the zig-zag case, a rotation at the parent, keeps the fix-up invariant and the in-order sequence and makes the case a straight line |
| RbTree.RotateAtGrandparentSound | autotools/bst.c:169-171 | the straight-line case (recolour, then rotate at the grandparent) keeps the invariant and the sequence, and leaves a black parent |
| RbTree.FixOrderDone | autotools/bst.c:193-194 | once the parent is black or the root is reached, blackening the root gives a valid red-black tree |
| Bst.MakeKey | autotools/bst.c:31-57 | `make_key` fails exactly when one of its three mallocs fails, and otherwise returns the key of the name |
| Bst.HasDataIffKey | autotools/bst.c:102-114 | in a tree whose entries carry their own keys, a name is stored exactly when an entry has that name's key |
| Bst.InsertKeepsSorted | autotools/bst.c:115-143 | an entry placed between smaller and larger ones keeps the in-order sequence sorted |
| Bst.DescentStart | autotools/bst.c:102-103 | the descent starts at the root with the search invariant holding |
| Bst.DescentFound | autotools/bst.c:105-109 | where `key_order` is 0, the tree holds an entry with the key |
| Bst.DescentShapeStep | autotools/bst.c:109-113 | stepping to a child keeps the descent a path of the tree |
| Bst.SortedGreaterAfter | autotools/bst.c:109-113 | in a sorted sequence, the entries after x have larger keys |
| Bst.SortedSmallerBefore | autotools/bst.c:109-113 | in a sorted sequence, the entries before x have smaller keys |
| Bst.DescentLeft | autotools/bst.c:110-111 | going left when the new key is smaller keeps the search invariant |
| Bst.DescentRight | autotools/bst.c:112-113 | going right when the new key is larger keeps the search invariant |
| Bst.DescentMissed | autotools/bst.c:114-125 | a descent that falls off the tree proves no entry has the key, and gives the position where the new node belongs |
| Bst.InsertionSound | autotools/bst.c:115-143 | a red node at the insertion point keeps the in-order sequence sorted and well keyed, and inserts exactly the new entry |
| Bst.InorderLength | autotools/bst.c:253-263 | the in-order walk visits each node once |
| Bst.InorderOutLists | autotools/bst.c:253-263 | `_bst_inorder_out_r` issues one `fprintf` per node, in in-order sequence, and each write's verdict is the stream's |
| Bst.InorderOut | autotools/bst.c:253-263 | `_bst_inorder_out_r`: the writes of the left subtree, the node, then the right subtree, each with the stream's verdict (a definition; `InorderOutLists` proves it one write per node in in-order) |
| Bst.SortTree.Output | autotools/bst.c:247-249 | `bst_inorder_out`: the writes of the walk from the root (a definition; `InorderOutAscending` proves them ascending, each stored name once) |
| Bst.InorderOutAscending | autotools/bst.c:247-249 | `bst_inorder_out` prints the stored names in strictly ascending key order, each exactly once, and every stored name is printed |
| Bst.SortTree.constructor | autotools/bst.c:62-70 | a new tree is empty and uses the given collation |
| Bst.SortTree.Descend | autotools/bst.c:102-114 | the descent loop finds an entry with the key exactly when one exists, and otherwise yields the insertion point |
| Bst.SortTree.AddNode | autotools/bst.c:94-146 | `bst_add_node` returns 1 for a name already stored, -1 on a failed malloc, and 0 otherwise. On 0 it inserts the name at its sorted place and leaves a valid red-black tree; on 1 or -1 the tree is unchanged |
| Bst.SortTree.FixOrder | autotools/bst.c:153-195 | `_bst_fix_order` turns any tree in the fix-up invariant into a red-black tree with the same in-order sequence |
| Bst.SortTree.DeleteTree | autotools/bst.c:267-305 | deleting the tree leaves it empty |
| Bst.BstInit | autotools/bst.c:62-70 | `bst_init` returns NULL exactly when its malloc fails, and otherwise a fresh empty tree |
| LsList.NodeOrderTotal | autotools/ls_src/list.c:141-157 | `node_order` is 0 exactly when both nodes are NULL or they have equal keys; swapping its arguments flips the sign; a real node sorts before the NULL end of the list |
| LsList.NodeOrder | autotools/ls_src/list.c:141-157 | `node_order`: NULL after every node and equal to NULL, otherwise `f_name_lower` then `f_name` (a definition; `NodeOrderTotal` proves its meaning) |
| LsList.FilledDataKey | autotools/ls_src/list.c:108-124 | the node `node_fill_data` fills has the key of its file name |
| LsList.NodeFillDataMissesLowerFailure | autotools/ls_src/list.c:117 | as written, `node_fill_data` reports a malloc error only when the name copy fails; a failed lower-case copy is reported as success |
| LsList.NodeFillDataAsWritten | autotools/ls_src/list.c:108-127 | the two allocation tests of `node_fill_data` as written, `f_name == NULL && errno` and `f_name_lower && errno` (a definition; `NodeFillDataMissesLowerFailure` proves the second never reports a failed copy) |
| LsList.NodeFillData | autotools/ls_src/list.c:108-124 | `node_fill_data` with the evidently intended check: it succeeds exactly when both copies are allocated, otherwise it reports a malloc error, and a success holds the name, its lower-cased copy and the stat |
| LsList.AddOrderedKeepsOrder | autotools/ls_src/list.c:35-86 | `list_add_ordered` keeps a non-decreasing list non-decreasing |
| LsList.AddOrderedSpec | autotools/ls_src/list.c:35-86 | `list_add_ordered` as written on the list's nodes: the empty list, the new head, or the walk from the second node with its duplicate test (a definition; `AddOrderedKeepsOrder`, `AddOrderedContents`, `AddOrderedDupIff` and `AddOrderedDuplicatesHead` prove its meaning) |
| LsList.AddOrderedContents | autotools/ls_src/list.c:35-86 | an insertion that succeeds adds exactly the new node; a duplicate leaves the list unchanged; a malloc error cannot come from the walk |
| LsList.AddOrderedDupIff | autotools/ls_src/list.c:61-84 | on a non-decreasing list, a duplicate is reported exactly when some node after the head has the new node's key |
| LsList.AddOrderedDuplicatesHead | autotools/ls_src/list.c:61-67 | a name equal to the head of a strictly increasing list is linked in after the head and reported as a success, so the list holds the name twice |
| LsList.AddOrderedCheckedKeepsIncreasing | autotools/ls_src/list.c:35-86 | with the head also checked for equality, the list stays strictly increasing, a duplicate is reported exactly when some node has the key, and a success adds exactly the new node |
| LsList.AddOrderedCheckedSpec | autotools/ls_src/list.c:61-67 | the insertion with the head also tested for equality (a definition; `AddOrderedCheckedKeepsIncreasing` proves it keeps the list strictly increasing) |
| LsList.LsList.constructor | autotools/ls_src/list.c:13-27 | a new list is empty |
| LsList.LsList.Init | autotools/ls_src/list.c:13-27 | `list_init` on an existing list empties it |
| LsList.LsList.AddOrdered | autotools/ls_src/list.c:35-86 | insertion with the corrected fill check: a failed malloc, of the node or of either copy of the name, leaves the list unchanged and reports a malloc error; otherwise the code and the new list are those of the sorted insertion as written, and the list stays non-decreasing |
| LsList.LsList.Delete | autotools/ls_src/list.c:91-101 | `list_delete` leaves an empty list |
| LsList.ListInit | autotools/ls_src/list.c:13-27 | given a list, `list_init` empties it and returns it; given NULL, it returns a fresh empty list exactly when its malloc succeeds |
| FindList.NodeOrderTotal | autotools/find_src/list.c:130-146 | `node_order` is 0 exactly when both nodes are NULL or they have equal keys; swapping its arguments flips the sign; a real node sorts before the NULL end |
| FindList.NodeOrder | autotools/find_src/list.c:130-146 | `node_order`: NULL after every node and equal to NULL, otherwise `path_lower` then `path` (a definition; `NodeOrderTotal` proves its meaning) |
| FindList.NodeFillDataMissesLowerFailure | autotools/find_src/list.c:108 | as written, `node_fill_data` reports a malloc error only when the path copy fails; a failed lower-case copy is reported as success |
| FindList.NodeFillDataAsWritten | autotools/find_src/list.c:99-117 | the two allocation tests of `node_fill_data` as written, `path == NULL && errno` and `path_lower && errno` (a definition; `NodeFillDataMissesLowerFailure` proves the second never reports a failed copy) |
| FindList.NodeFillData | autotools/find_src/list.c:99-114 | with the evidently intended check it succeeds exactly when both copies are allocated, and a success holds the path and its lower-cased copy |
| FindList.AddOrderedKeepsOrder | autotools/find_src/list.c:35-77 | the find list's insertion keeps the nodes after the head strictly increasing, and never changes the head |
| FindList.AddOrderedSpec | autotools/find_src/list.c:35-77 | `list_add_ordered` as written on the list's nodes: the empty list, or the walk from the second node with its duplicate test (a definition; `AddOrderedKeepsOrder`, `AddOrderedContents`, `AddOrderedDupIff` and `AddOrderedNeverBeforeHead` prove its meaning) |
| FindList.AddOrderedContents | autotools/find_src/list.c:35-77 | an insertion that succeeds adds exactly the new node; a duplicate leaves the list unchanged |
| FindList.AddOrderedDupIff | autotools/find_src/list.c:60-70 | a duplicate is reported exactly when some node after the head has the new path's key |
| FindList.AddOrderedNeverBeforeHead | autotools/find_src/list.c:60-65 | the walk starts by comparing with the second node, so a path that sorts before or equal to the head is linked in after it and reported as a success, and the list is no longer sorted |
| FindList.AddOrderedHeadKeepsIncreasing | autotools/find_src/list.c:35-77 | with a new path compared with the head first (put in front when smaller, a duplicate when equal), the list stays strictly increasing, duplicates are exactly the paths already present, and a success adds exactly the new node |
| FindList.AddOrderedHeadSpec | autotools/find_src/list.c:60-65 | the insertion with the new path compared with the head first (a definition; `AddOrderedHeadKeepsIncreasing` proves it keeps the list strictly increasing) |
| FindList.NewHeadKeepsIncreasing | autotools/find_src/list.c:54-58 | a path smaller than the head is unequal to every node, and the list with it in front is strictly increasing |
| FindList.AfterHeadKeepsIncreasing | autotools/find_src/list.c:60-76 | for a path larger than the head, the walk as written keeps the list strictly increasing and reports a duplicate exactly when a later node has the key |
| FindList.FindList.constructor | autotools/find_src/list.c:13-27 | a new list is empty |
| FindList.FindList.Init | autotools/find_src/list.c:13-27 | `list_init` on an existing list empties it |
| FindList.FindList.AddOrdered | autotools/find_src/list.c:35-77 | insertion with the corrected fill check: a failed malloc, of the node or of either copy of the path, leaves the list unchanged and reports a malloc error; otherwise the code and the new list are those of the sorted insertion as written, and the part after the head stays strictly increasing |
| FindList.FindList.Delete | autotools/find_src/list.c:82-92 | `list_delete` leaves an empty list |
| FindList.ListInit | autotools/find_src/list.c:13-27 | given a list, `list_init` empties it and returns it; given NULL, it returns a fresh empty list exactly when its malloc succeeds |
| Quicksort.JoinSorted | autotools/dir_arr.c:105-112 | two sorted runs, with everything left of the pivot below it and nothing right of it below it, make one sorted run |
| Quicksort.SortStep | autotools/dir_arr.c:105-112 | partitioning, then sorting both sides in place, sorts the range, permutes it, and leaves everything outside it alone |
| Quicksort.Swap | autotools/dir_arr.c:28-32 | `swap` exchanges two slots and changes nothing else |
| Quicksort.PivotIndex | autotools/dir_arr.c:115 | `rand() % (r-p+1) + p` always picks a pivot inside [p, r] |
| Quicksort.LomutoStep | autotools/dir_arr.c:118-123 | one iteration of the partition loop keeps the loop invariant |
| Quicksort.LomutoFinish | autotools/dir_arr.c:124-126 | the final swap puts the pivot between the smaller elements and the rest |
| Quicksort.LomutoLoop | autotools/dir_arr.c:117-123 | on exit from the loop, the slots p to i hold exactly the elements below the pivot, the range is a permutation of the original, and the pivot is still at r |
| Quicksort.Partition | autotools/dir_arr.c:114-127 | `_qs_partition` returns q in [p, r] holding the randomly chosen pivot, with everything before q below it and nothing after q below it. The range is permuted and nothing outside it changes |
| Quicksort.PartitionAtEnd | autotools/f_list.c:156-166 | the Lomuto partition around the element at r: the same guarantees, with the pivot taken from r |
| Quicksort.SortR | autotools/dir_arr.c:105-112 | `_qs_sort_r` leaves the range sorted and a permutation of its old contents, and touches nothing outside it |
| DirArr.ArrSizeTable | autotools/dir_arr.c:59 | the capacity table grows strictly and fits in 32 bits; adding 1 to the last entry wraps to 0 in unsigned arithmetic |
| DirArr.SlotLessIsStrictOrder | autotools/dir_arr.c:119 | the partition's comparison `key_order(...) < 0` is a strict order for a strict total collation |
| DirArr.SortedSlotsKeyOrder | autotools/dir_arr.c:101-103 | after the sort, the keys of the slots in use are in non-decreasing `key_order` |
| DirArr.MakeKey | autotools/dir_arr.c:13-26 | `make_key` fails exactly when its malloc fails, and otherwise returns the name's key |
| DirArr.Qs.constructor | autotools/dir_arr.c:34-37 | the container before its first resize: no array, `arr_size_i` -1 and `arr_len` 0 |
| DirArr.Qs.Resize | autotools/dir_arr.c:83-99 | `_qs_resize` advances `arr_size_i`. It returns 1 past the table's end and -1 when malloc fails, changing no array in either case. Otherwise it returns 0 with a fresh array of the next capacity that starts with the old slots in order |
| DirArr.Qs.AddElem | autotools/dir_arr.c:55-79 | `qs_add_elem` always increments `arr_len`. A failed resize returns -1. Otherwise the new slot holds the name and its key, or NULL when a malloc failed, and it returns 0 exactly when both mallocs succeeded |
| DirArr.Qs.Sort | autotools/dir_arr.c:101-103 | `qs_sort` leaves the slots in use sorted by key and a permutation of their old contents, and touches nothing past them |
| DirArr.InitContainer | autotools/dir_arr.c:34-45 | `qs_init_container` returns NULL exactly when the first resize fails, and otherwise an empty container at the first capacity |
| FList.FListSizeTable | autotools/f_list.c:88 | the capacity table has `_F_LIST_SIZE_LEN` entries, grows strictly and fits in 32 bits |
| FList.SlotLessIsStrictOrder | autotools/f_list.c:159 | the partition's comparison is a strict order for a strict total collation |
| FList.SortedSlotsKeyOrder | autotools/f_list.c:136-138 | after the sort, the keys are in non-decreasing `key_order` |
| FList.MakeKey | autotools/f_list.c:23-36 | `make_key` fails exactly when its malloc fails, and otherwise returns the name's key |
| FList.FList.constructor | autotools/f_list.c:41-57 | the list `f_list_init` builds is empty, at the first capacity |
| FList.FList.Resize | autotools/f_list.c:115-132 | `_f_list_resize` advances `size_i`. It returns 1 past the table's end and -1 on a failed malloc. Otherwise it returns 0 with a fresh array of the next capacity holding all `len` records in order |
| FList.FList.AddElem | autotools/f_list.c:83-109 | `f_list_add_elem` resizes when the array is full and passes on a failed resize. It stores the record (name, key, stat) at `len` and increments `len` only on success; a failed malloc leaves that slot NULL and returns -1 |
| FList.FList.Sort | autotools/f_list.c:136-138 | `f_list_sort` leaves the records sorted by key and a permutation of their old contents |
| FList.Init | autotools/f_list.c:41-78 | `f_list_init` and `f_list_init_seed` return NULL exactly when one of their two mallocs fails, and otherwise an empty list |
| Mode.TypeField | autotools/ls_src/long_out.c:360 | `mode & S_IFMT` is a multiple of 0x1000 that is no more than `S_IFMT` |
| Mode.TypeBitsInjective | autotools/ls_src/long_out.c:356-357 | the seven `S_IF*` values are pairwise distinct, and each one is its own type field |
| Mode.FileTypeOf | autotools/ls_src/ls.c:267-280 | `S_ISxxx(mode)` holds exactly for the type whose `S_IF*` value the type field carries |
| Mode.PermBit | autotools/ls_src/long_out.c:139-147 | each of the nine positions of a mode string reads a permission bit |
| Mode.PermCharIff | autotools/ls_src/long_out.c:139-147 | position k shows its letter (r, w, x in turn) exactly when its bit is set, and '-' exactly when it is clear |
| Mode.PermChar | autotools/ls_src/long_out.c:139-147 | character k of the mode string: its letter when its permission bit is set, '-' otherwise (a definition; `PermCharIff` proves the iff) |
| Mode.PermBitsDistinct | autotools/ls_src/long_out.c:139-147 | the nine permission bits are distinct single bits, below the type field |
| Mode.WritePermChars | autotools/ls_src/ls.c:282-290 | writes the nine permission characters at positions 1 to 9 and touches no other cell |
| LongOut.MaxStrLen | autotools/ls_src/long_out.c:67-95 | the width of a column is at least its starting value and at least every entry's string length. It equals the starting value or one of those lengths |
| LongOut.MaxStrLenSnoc | autotools/ls_src/long_out.c:68-94 | one more entry raises a width to that entry's length exactly when the entry is longer |
| LongOut.GetTypeChar | autotools/ls_src/long_out.c:354-367 | `get_type_char` returns the long-format character of the mode's file type, and '?' exactly when no type matches |
| LongOut.LsTypeChar | autotools/ls_src/long_out.c:354-367 | the long format's character for each file type, '?' for none (a definition; `GetTypeChar` computes it and `FindCommon.FindAndLsTypeChars` relates it to find's) |
| LongOut.ParseModeStr | autotools/ls_src/long_out.c:137-149 | `parse_mode_str` writes the type character, nine permission characters that follow the bits, and a NUL at position 10, and nothing past it |
| LongOut.FirstParseError | autotools/ls_src/long_out.c:43-54 | there is a first error exactly when some entry fails to parse, and it is the error of such an entry, with every earlier entry parsed |
| LongOut.FirstParseErrorSkip | autotools/ls_src/long_out.c:43-54 | skipping entries that parse does not change which error comes first |
| LongOut.CreateAllocTestInverted | autotools/ls_src/long_out.c:35-39 | as written, the test `entries && errno` never fires for a failed malloc, and it fires for a successful one whenever errno was left set |
| LongOut.CreateAllocFailsAsWritten | autotools/ls_src/long_out.c:35-39 | the test `entries && errno` as written, with errno as an earlier call left it (a definition; `CreateAllocTestInverted` proves it inverted) |
| LongOut.DirLongOut.constructor | autotools/ls_src/long_out.c:12-20 | a new struct is initialized: all five widths 0, entries NULL, `entries_c` 0 |
| LongOut.DirLongOut.Init | autotools/ls_src/long_out.c:12-20 | `dir_long_out_init` zeroes the five widths and clears the entries |
| LongOut.DirLongOut.Delete | autotools/ls_src/long_out.c:331-337 | `dir_long_out_delete` returns the struct to its initialized state |
| LongOut.DirLongOut.RaiseWidths | autotools/ls_src/long_out.c:69-93 | one pass of the loop body raises each width to the entry's length when that is longer, and changes nothing else |
| LongOut.DirLongOut.SetMaxStrs | autotools/ls_src/long_out.c:67-95 | after `set_max_strs`, each width is the maximum of its old value and every entry's length in that column |
| LongOut.DirLongOut.Create | autotools/ls_src/long_out.c:30-61 | with the allocation test corrected: a failed malloc reports a malloc error. Otherwise entries are parsed in list order; the first failure is returned and the struct is left initialized. A success holds one parsed entry per listed file, with the widths at the column maxima |
| Ls.LsErr.Code | autotools/ls_src/ls.h:26-35 | the `ls_err` values run from 0 to 9, and 0 is exactly `LS_ERR_NONE` |
| Ls.DirPart | autotools/ls_src/ls.c:168-172 | the directory part is the path, with one '/' added unless the path already ends in '/' |
| Ls.JoinedPathParts | autotools/ls_src/ls.c:168-173 | the full path starts with path and ends with the file name. When path has no trailing '/', exactly one '/' is inserted between them; otherwise none |
| Ls.JoinedPath | autotools/ls_src/ls.c:168-173 | the path `get_full_path` builds: the directory part, then the name (a definition; `JoinedPathParts` proves its shape) |
| Ls.BytesWritten | autotools/ls_src/ls.c:168-173 | on success, `get_full_path` writes the joined path and one terminator |
| Ls.PathCheckMissesSeparator | autotools/ls_src/ls.c:164 | the test as written does not count the inserted '/': a path without a trailing '/' whose lengths exactly fill the buffer passes the test, and one byte is written past the buffer ("a" and "b" into 3 bytes) |
| Ls.PathFitsAsWritten | autotools/ls_src/ls.c:164 | the admission test as written, `strlen(path) + strlen(f_name) + 1 <= path_buf_len` (a definition; `PathCheckMissesSeparator` and `PathFitsSound` compare it with the bytes written) |
| Ls.PathFitsSound | autotools/ls_src/ls.c:164-166 | the corrected test admits only what the written test admits, and the two agree when the path already ends in '/' |
| Ls.MemCpy | autotools/ls_src/ls.c:168 | `memcpy` puts the bytes at the offset and leaves the rest of the buffer unchanged |
| Ls.CopyDirPart | autotools/ls_src/ls.c:168-172 | the buffer then holds the directory part and a terminator, and `strlen(path_buf)` is the directory part's length |
| Ls.GetFullPath | autotools/ls_src/ls.c:160-176 | with the bound corrected, `get_full_path` reports an overflow exactly when the joined path and its terminator do not fit, and then writes nothing. On success the buffer starts with the joined path and a terminator, and the rest is unchanged |
| Ls.GetModeStr | autotools/ls_src/ls.c:266-292 | `get_mode_str` sets the type character for a recognised type and leaves it untouched otherwise; permission characters 1 to 9 follow the bits; character 10 is NUL; nothing past it changes |
| PrintUtils.GetFMaxStrlen | autotools/ls_src/print_utils.c:3-39 | the width is 12 exactly for "%d", 11 exactly for "%u", and 21 exactly for the four long formats. It is -1 for every other C string |
| PrintUtils.FormatsPrefixFree | autotools/ls_src/print_utils.c:18-35 | no listed format is a proper prefix of another |
| PrintUtils.ExtendedFormatRejected | autotools/ls_src/print_utils.c:18-38 | a string that merely begins with a listed format gets -1, because each comparison includes the terminator |
| PrintUtils.DigitsBound | autotools/ls_src/print_utils.c:11-16 | a number has at most k decimal digits exactly when it is below 10^k |
| PrintUtils.PowMonotone | autotools/ls_src/print_utils.c:11-16 | powers of ten grow with the exponent |
| PrintUtils.IntWidthSuffices | autotools/ls_src/print_utils.c:11 | every int prints, with its terminator, within the "%d" width, and INT_MIN needs all of it |
| PrintUtils.UIntWidthSuffices | autotools/ls_src/print_utils.c:12 | every unsigned int fits the "%u" width, and UINT_MAX needs all of it |
| PrintUtils.LongWidthSuffices | autotools/ls_src/print_utils.c:13 | every long fits the "%ld" width, and LONG_MIN needs all of it |
| PrintUtils.ULongWidthSuffices | autotools/ls_src/print_utils.c:14 | every unsigned long fits the "%lu" width, and ULONG_MAX needs all of it |
| PrintUtils.Pow10Value19 | autotools/ls_src/print_utils.c:6-7 | the values of 10^18 and 10^19 that the long bounds use |
| PrintUtils.PowAdd | autotools/ls_src/print_utils.c:11-16 | 10^(j+k) is 10^j times 10^k |
| CString.StrNEqSymmetric | autotools/find_src/expression_prim_parse.c:29-31 | `strncmp(a, b, n) == 0` exactly when `strncmp(b, a, n) == 0` |
| CString.StrNEqExact | autotools/ls_src/print_utils.c:18 | from a common position, comparing with one more character than b has tests the rest of a for being exactly the rest of b |
| CString.StrNEqLonger | autotools/ls_src/print_utils.c:18-35 | a string longer than b never compares equal to b when the terminator is counted |
| CString.StrNCmpWithTerminator | autotools/find_src/expression_prim_eval.c:133-142 | `strncmp(a, b, strlen(b) + 1) == 0` exactly when a is b |
| CString.StrNEqPrefixFrom | autotools/find_src/expression_prim_parse.c:29-31 | from any common position on, a comparison of `strlen(b)` characters tests b for being a prefix of a |
| CString.StrNCmpPrefix | autotools/find_src/expression_prim_parse.c:29-31 | `strncmp(a, b, strlen(b)) == 0` exactly when b is a prefix of a |
| CString.SkipSpace | autotools/find_src/expression_primaries.c:43 | `strtol` skips exactly the leading white space |
| CString.DigitRun | autotools/find_src/lost_fucking_souls/expression.c:263 | the digits `strtol` reads run up to the first non-digit |
| CString.DecimalString | autotools/find_src/lost_fucking_souls/expression.c:347-357 | the decimal form of a number is a non-empty run of digits |
| CString.DecimalRoundTrip | autotools/find_src/lost_fucking_souls/expression.c:260-272 | reading back the decimal form of n gives n |
| CString.ClampLong | autotools/find_src/lost_fucking_souls/expression.c:263-266 | `strtol` always yields a long, and an in-range value as it is |
| CString.Strtol | autotools/find_src/expression_primaries.c:43 | `strtol` ends within the string and always yields a long |
| CString.StrtolDigits | autotools/find_src/lost_fucking_souls/expression.c:263-266 | on a non-empty run of digits, `strtol` reads the whole word, sets ERANGE exactly when the value exceeds LONG_MAX, and otherwise yields the value itself |
| CString.DigitRunAll | autotools/find_src/lost_fucking_souls/expression.c:263 | in a word of digits, the digit run reaches the end |
| FindCommon.RoundUpDiv | autotools/find_src/expression_prim_parse.c:232-238 | "t / d, plus one when t % d > 0" with C division is the least whole count of d that reaches t, for negative t as well |
| FindCommon.StartTimesOf | autotools/find_src/expression_prim_parse.c:232-238 | the start day and start minute are the clock rounded up to whole days and whole minutes |
| FindCommon.CnewerComparesInstants | autotools/find_src/expression_prim_eval.c:72-75 | for normalised timespecs, `eval_cnewer` holds exactly when the file's ctime is the later instant; it is irreflexive, and of two different times exactly one is newer |
| FindCommon.EvalCnewer | autotools/find_src/expression_prim_eval.c:72-75 | `eval_cnewer`: seconds first, then nanoseconds (a definition; `CnewerComparesInstants` proves it compares instants) |
| FindCommon.EvalMinutes | autotools/find_src/expression_prim_eval.c:81-84 | `start_time_min - tv_sec / 60 == n` with C division (a definition; `EvalMinutesWindow` proves its window) |
| FindCommon.EvalDays | autotools/find_src/expression_prim_eval.c:90-93 | `start_time_day - tv_sec / 86400 == n` with C division (a definition; `EvalDaysWindow` proves its window) |
| FindCommon.EvalMinutesWindow | autotools/find_src/expression_prim_eval.c:81-84 | `start_time_min - tv_sec / 60 == n` holds exactly for the times in the minute n minutes before the start minute, with truncating division |
| FindCommon.EvalDaysWindow | autotools/find_src/expression_prim_eval.c:90-93 | the day test holds exactly for the times in the day n days before the start day |
| FindCommon.ChangedAtStart | autotools/find_src/expression_prim_parse.c:232-238 | because the start times are rounded up, a file changed at the start instant is 1 minute (or day) old unless the start was on a boundary |
| FindCommon.FindTypeCharInjective | autotools/find_src/expression_prim_eval.c:165-178 | the type characters are distinct and lie in "bcdflps?" |
| FindCommon.FindTypeChar | autotools/find_src/expression_prim_eval.c:165-178 | find's character for each file type, '?' for none (a definition; `FindTypeCharInjective` proves them distinct and `GetTypeChar` computes it) |
| FindCommon.FindAndLsTypeChars | autotools/find_src/expression_prim_eval.c:165-178 | find and ls agree on every type character except a regular file's, 'f' against '-' |
| FindCommon.GetTypeChar | autotools/find_src/expression_prim_eval.c:165-178 | the search loop of `get_type_char` returns the type's find character, and '?' exactly when no type matches |
| FindCommon.EvalTypeSelects | autotools/find_src/expression_prim_eval.c:117-119 | "-type c" for a type's own character selects exactly the files of that type; a character outside "bcdflps?" selects nothing |
| FindCommon.EvalType | autotools/find_src/expression_prim_eval.c:117-119 | `eval_type`: the file's type character is t (a definition; `EvalTypeSelects` proves which files it selects) |
| FindPrimParse.PrimaryNamesAreCStrings | autotools/find_src/expression_prim_parse.c:29-31 | the names in the table are C strings |
| FindPrimParse.PrimaryOf | autotools/find_src/expression_prim_parse.c:24-38 | the first table entry that is a prefix of the name, and no earlier entry is one; None exactly when no entry is a prefix |
| FindPrimParse.PrimaryParse | autotools/find_src/expression_prim_parse.c:24-38 | `primary_parse` returns 0 with the first entry that is a prefix of the name. It returns -1 exactly when there is none, and then leaves `*primary` as it was |
| FindPrimParse.PrimaryOfFirst | autotools/find_src/expression_prim_parse.c:24-38 | the least matching index is the one found |
| FindPrimParse.PrimaryNamesPrefixFree | autotools/find_src/expression_prim_parse.c:29-31 | no name in the table is a prefix of another |
| FindPrimParse.PrimaryMatchUnique | autotools/find_src/expression_prim_parse.c:24-38 | so a name matches at most one entry |
| FindPrimParse.ExtendedNameAccepted | autotools/find_src/expression_prim_parse.c:29-31 | a word that merely starts with a primary's name, such as "-typex", is accepted as that primary |
| FindPrimParse.GetArgLongAsWritten | autotools/find_src/expression_prim_parse.c:75-89 | as written, `get_arg_long` returns 0, stores nothing and leaves the cursor where it was, whatever the word |
| FindPrimParse.LongConverts | autotools/find_src/expression_prim_parse.c:68-74 | the word `get_arg_long`'s comment accepts: one `strtol` converts entirely and in range (a definition; `GetArgLong` and `GetArgLongParsesDecimal` use it) |
| FindPrimParse.IncrArgvI | autotools/find_src/expression_prim_parse.c:193-195 | `incr_argv_i`: the cursor moved on by i words (a definition; the parsers' contracts state the cursor they leave through it) |
| FindPrimParse.GetArgLong | autotools/find_src/expression_prim_parse.c:68-74 | as its comment documents it: success exactly for a word that `strtol` converts entirely and in range. It stores the value and advances the cursor by one; on failure it returns -1 and changes nothing |
| FindPrimParse.GetArgLongParsesDecimal | autotools/find_src/expression_prim_parse.c:75-89 | the decimal form of any long is parsed as that long by the intended version, and not at all by the written one |
| FindPrimParse.GetArgChar | autotools/find_src/expression_prim_parse.c:96-106 | `get_arg_char` succeeds exactly for a one-character word, storing it and advancing by one; otherwise it returns -1 and changes nothing |
| FindPrimParse.GetArgCtim | autotools/find_src/expression_prim_parse.c:113-133 | `get_arg_ctim` succeeds exactly when the malloc and `stat` succeed, storing the file's ctime and advancing by one |
| FindPrimParse.ArgvEnd | autotools/find_src/expression_prim_parse.c:147-150 | the position of the first ";" from the cursor on, or the vector's end |
| FindPrimParse.IsArgvEndMark | autotools/find_src/expression_prim_parse.c:147 | comparing with `strlen(";") + 1` characters tests a word for being ";" itself |
| FindPrimParse.ScanArgv | autotools/find_src/expression_prim_parse.c:146-150 | the scan loop counts the words before the first ";" |
| FindPrimParse.GetArgArgvResult | autotools/find_src/expression_prim_parse.c:143-188 | `get_arg_argv` succeeds exactly when a ";" follows at least one word and the allocations succeed. It stores those words and moves past the ";"; otherwise it returns -1 and changes nothing |
| FindPrimParse.GetArgArgvCopies | autotools/find_src/expression_prim_parse.c:151-153 | a success copies a non-empty run of words; no ";", or a ";" right at the cursor, fails |
| FindPrimParse.GetArgArgv | autotools/find_src/expression_prim_parse.c:143-188 | the method, with its scan loop, computes that result |
| FindPrimParse.GetArgArgvAsWritten | autotools/find_src/expression_prim_parse.c:173-179 | as written, a failure of the third allocation (`argv_dest`) returns 0 with nothing stored and the cursor unmoved; otherwise it agrees with the intended result |
| FindPrimParse.ArgvDestFailureReportsSuccess | autotools/find_src/expression_prim_parse.c:173-179 | with "ls ;" and the third allocation failing, the written version reports success and the intended one reports -1 |
| FindPrimParse.ArgParseResult | autotools/find_src/expression_prim_parse.c:48-67 | `primary_arg_parse`, with `get_arg_long` and `get_arg_argv` corrected, returns 0 or -1. On 0 the argument has the member its type reads, and the cursor moves by exactly the words it took. On -1 nothing changes. Per type: a long succeeds exactly for a word `strtol` converts entirely and in range and stores that value; a char exactly for a one-character word and stores it; a ctime exactly when the allocation and the file's `stat` succeed and stores its ctime; an argv exactly when the allocations succeed and a ";" follows a non-empty run of words, and stores those words |
| FindPrimParse.PrimaryArgParse | autotools/find_src/expression_prim_parse.c:48-67 | the dispatch on `primary_arg_type_map`, with `get_arg_long` and `get_arg_argv` corrected, computes that result |
| FindPrimParse.GetProgState | autotools/find_src/expression_prim_parse.c:225-243 | `get_prog_state` fails exactly when the clock does and then leaves the state alone; otherwise the start day and minute are the clock rounded up |
| FindPrimEval.ExpandMarkTests | autotools/find_src/expression_prim_eval.c:135 | the comparison with "{}" over three characters tests each word for being "{}" itself |
| FindPrimEval.Substituted | autotools/find_src/expression_prim_eval.c:133-142 | the substituted command has one word per word of the vector: the path for each "{}", and the word itself otherwise |
| FindPrimEval.SubstituteArgv | autotools/find_src/expression_prim_eval.c:133-142 | the substitution loop writes that command into `argv_dest`, puts NULL after it, and touches nothing past it |
| FindPrimEval.EvalExec | autotools/find_src/expression_prim_eval.c:129-159 | `eval_exec` is true exactly when the substituted command succeeds |
| FindPrimEval.PrimaryEvaluate | autotools/find_src/expression_prim_eval.c:19-62 | the corrected `primary_evaluate` aborts exactly for a primary outside the table |
| FindPrimEval.PrimaryEvaluateMeaning | autotools/find_src/expression_prim_eval.c:19-62 | each primary means what find documents: -cnewer a later ctime, -cmin/-mmin n the minute n minutes before the start, -ctime/-mtime n the day n days before it, -type the files of that type, -exec a successful command |
| FindPrimEval.PrimaryEvaluateAsWritten | autotools/find_src/expression_prim_eval.c:42-45 | as written, -mtime tests days against the start minute; every other primary is evaluated as in the corrected version |
| FindPrimEval.MtimeComparesMinutesWithDays | autotools/find_src/expression_prim_eval.c:42-45 | started one day after the epoch, a file modified at that instant is rejected by "-mtime 0" as written and accepted by the corrected version |
| FindPrim.PrimaryEvaluate | autotools/find_src/expression_prim.c:17-48 | the middle layer's dispatch aborts exactly for a primary outside the table |
| FindPrim.AgreesWithCorrectedEval | autotools/find_src/expression_prim.c:17-48 | with the same start times, this layer decides every primary as the corrected later one does, including -mtime in days. Its -exec runs its words unsubstituted, so the two agree when no word is "{}" |
| FindPrim.PrimariesAgreeWithLaterLayers | autotools/find_src/expression_primaries.c:116-140 | the earliest layer decides its six primaries as the two later layers do, and answers false for an unknown primary |
| FindPrimaries.TableIsPrefixOfLater | autotools/find_src/expression_primaries.c:23-31 | the earliest table is the later table without -exec |
| FindPrimaries.PrimaryParse | autotools/find_src/expression_primaries.c:23-31 | returns 0 with the first entry that is a prefix of the word; otherwise -1 with `*primary = PRIMARY_NUM`. It agrees with the later parser, except that "-exec" is unknown here |
| FindPrimaries.PrimaryArgParse | autotools/find_src/expression_primaries.c:38-60 | a long argument always succeeds and stores `strtol`'s value of the word, whatever the word (`CString.Strtol`): the value of a word of digits within range, 0 for a word without leading digits. A char argument stores the first character and fails unless the word is one character. A stat argument fails exactly when `get_stat` does |
| FindPrimaries.GetStat | autotools/find_src/expression_primaries.c:66-79 | `get_stat`: NULL on a failed malloc or a failed `stat`, otherwise the file's stat (a definition; `PrimaryArgParse` states its stat case through it) |
| FindPrimaries.NonNumericLongAccepted | autotools/find_src/expression_primaries.c:42-44 | "-mmin abc" is accepted and read as "-mmin 0" |
| FindPrimaries.PrimaryArgsG.constructor | autotools/find_src/expression_primaries.h:46-49 | the globals struct holds the given start times |
| FindPrimaries.PrimaryArgsG.GetPrimaryGlobals | autotools/find_src/expression_primaries.c:88-105 | `get_primary_globals` returns -1 exactly when the clock fails and then changes nothing. Otherwise it returns 0 with the clock rounded up to whole days and whole minutes |
| FindPrimaries.PrimaryEvaluate | autotools/find_src/expression_primaries.c:116-140 | an unknown primary evaluates to false |
| FindExpression.CreatePrimaryResult | autotools/find_src/expression.c:69-98 | `expression_create_primary`, with `get_arg_long` and `get_arg_argv` corrected, reports, in order: a malloc error exactly when the node allocation fails, EXPR_ERR_PRIMARY for an unknown name, EXPR_ERR_NO_ARG at the end of the vector, and EXPR_ERR_ARG exactly when `primary_arg_parse` of the next word fails. On success the node is the named primary holding the argument that parse stored, and the cursor is where the parse left it; on an error it does not move |
| FindExpression.ParsedArgvIsArgv | autotools/find_src/expression_prim_parse.c:155-183 | the -exec words a parse stores are C strings |
| FindExpression.CreatePrimary | autotools/find_src/expression.c:69-98 | the method, with `get_arg_long` and `get_arg_argv` corrected, computes that result |
| FindExpression.CreateFrom | autotools/find_src/expression.c:38-58 | the creation loop, with `get_arg_long` and `get_arg_argv` corrected, never reports a state error. On an error it keeps no nodes; on success every node can be evaluated |
| FindExpression.StepAtAdvances | autotools/find_src/expression.c:42-56 | every successful `expression_create_primary` call of the loop yields a node and moves the cursor forward, at most to the end of the vector |
| FindExpression.StepAt | autotools/find_src/expression.c:43-44 | the `expression_create_primary` call the loop makes for the name at position q (a definition; `StepAtAdvances`, `CreateFromIsLoop` and `CreateFromChain` state what the loop does with it) |
| FindExpression.CreateFromIsLoop | autotools/find_src/expression.c:42-56 | the creation loop is the generic loop over those calls: stop at the end with the nodes, or at the first failing call with its error and no nodes |
| FindExpression.LoopIsChain | autotools/find_src/expression.c:42-56 | a success of that loop is a chain of successful calls, each starting where the previous one left the cursor, that ends exactly at the end; a failure has the error of the call that follows such a chain |
| FindExpression.ChainDecidesLoop | autotools/find_src/expression.c:42-56 | conversely, a chain of successful calls that ends at the end is the loop's result, and one followed by a failing call gives that call's error |
| FindExpression.CreateFromChain | autotools/find_src/expression.c:38-58 | `expression_create`'s loop succeeds exactly when the vector is such a chain of `expression_create_primary` calls ending at its end, and returns its nodes; otherwise it returns the error of the call after the chain |
| FindExpression.CreateFromConsumesAll | autotools/find_src/expression.c:42-56 | with `get_arg_long` and `get_arg_argv` corrected, a successful creation consumes the whole vector, primary after primary in order, and its first node is the primary named first |
| FindExpression.PrependStep | autotools/find_src/expression.c:42-56 | building node by node composes: a prefix and one more node give the longer prefix |
| FindExpression.Expression.constructor | autotools/find_src/expression.h:31-32 | a new expression has no nodes |
| FindExpression.Expression.AddPrimary | autotools/find_src/expression.c:104-115 | `expression_add_primary` appends the node at the tail; the existing nodes and their order are unchanged |
| FindExpression.Expression.Evaluate | autotools/find_src/expression.c:122-136 | with -mtime corrected (each node is `FindPrimEval.PrimaryEvaluate`, which compares against the start day), `expression_evaluate` is true exactly when every primary holds (so for an empty expression). It evaluates the primaries in order and stops at the first false one |
| FindExpression.Expression.Delete | autotools/find_src/expression.c:142-150 | `expression_delete` releases every node |
| FindExpression.Expression.Create | autotools/find_src/expression.c:29-59 | `expression_create`, with `get_arg_long` and `get_arg_argv` corrected, returns EXPR_ERR_STATE exactly when the clock fails, before anything is parsed. Otherwise the state is set, and the result and the nodes are those of the creation loop: the primaries in vector order, or none after the first error |
| LostExpressionDefs.StartTime.constructor | autotools/find_src/lost_fucking_souls/expression_defs.h:45-47 | the start-time globals start at 0 |
| LostExpressionDefs.StartTime.SetStartTime | autotools/find_src/lost_fucking_souls/expression_defs.c:16-26 | `set_start_time` sets the start day and minute to the start rounded up to whole days and minutes |
| LostExpressionDefs.EvalCnewer | autotools/find_src/lost_fucking_souls/expression_defs.c:31-40 | the draft's `eval_cnewer` is the later (sec, nsec) comparison |
| LostExpressionDefs.EvalCmin | autotools/find_src/lost_fucking_souls/expression_defs.c:45-51 | -cmin n holds exactly for ctimes in the minute n minutes before the start minute |
| LostExpressionDefs.EvalCtime | autotools/find_src/lost_fucking_souls/expression_defs.c:56-62 | -ctime n holds exactly for ctimes in the day n days before the start day |
| LostExpressionDefs.EvalMmin | autotools/find_src/lost_fucking_souls/expression_defs.c:67-73 | -mmin n holds exactly for mtimes in the minute n minutes before the start minute |
| LostExpressionDefs.EvalMtime | autotools/find_src/lost_fucking_souls/expression_defs.c:78-84 | -mtime n holds exactly for mtimes in the day n days before the start day |
| LostExpressionDefs.GetTypeChar | autotools/find_src/lost_fucking_souls/expression_defs.c:99-122 | the chain of `S_IS*` tests gives the same character as the later table search, one of "bcdflps?" |
| LostExpressionDefs.EvalType | autotools/find_src/lost_fucking_souls/expression_defs.c:89-94 | "-type t" for a type's own character holds exactly for files of that type; any other character selects nothing |
| LostExpressionDefs.TypeCharSelects | autotools/find_src/lost_fucking_souls/expression_defs.c:89-94 | the same, for the shared type test |
| LostExpression.IsNumber | autotools/find_src/lost_fucking_souls/expression.c:347-357 | `is_number` is true exactly when every character is a digit, so the empty word counts |
| LostExpression.EmptyLongArgAccepted | autotools/find_src/lost_fucking_souls/expression.c:260-272 | the empty word is accepted as the long 0 |
| LostExpression.GetLongArg | autotools/find_src/lost_fucking_souls/expression.c:260-272 | `get_long_arg` stores the value of a word of digits that fits in a long. Any other word gives EXPR_ERR_INVALID_ARG with `*dest` kept |
| LostExpression.LongArgResult | autotools/find_src/lost_fucking_souls/expression.c:260-272 | what `get_long_arg` yields: a word of digits that fits in a long is stored, anything else is EXPR_ERR_INVALID_ARG with `*dest` kept (a definition; `GetLongArg` computes it and `EmptyLongArgAccepted` shows its empty-word case) |
| LostExpression.FileTypeArgResult | autotools/find_src/lost_fucking_souls/expression.c:301-315 | success exactly for a one-character word from "bcdflps", which is stored; otherwise `*dest` is kept |
| LostExpression.GetFileTypeArg | autotools/find_src/lost_fucking_souls/expression.c:301-315 | the length test and search loop compute that result |
| LostExpression.StatArgResult | autotools/find_src/lost_fucking_souls/expression.c:280-294 | `get_stat_arg` reports a malloc error exactly when its malloc fails, and EXPR_ERR_INVALID_ARG exactly when `stat` fails; a success holds the file's stat |
| LostExpression.PrimaryIndex | autotools/find_src/lost_fucking_souls/expression.c:205-229 | the index of the table entry equal to the word; None exactly when no entry is equal |
| LostExpression.TableIsLaterTable | autotools/find_src/lost_fucking_souls/expression_defs.c:4-12 | the draft's names are the later parser's first six |
| LostExpression.ExtendedNameRejected | autotools/find_src/lost_fucking_souls/expression.c:205-229 | unlike the later parsers, the draft rejects a name with anything appended, and finds each name at its own index |
| LostExpression.SameLengthCompare | autotools/find_src/lost_fucking_souls/expression.c:212-216 | for two C strings of the same length, `strncmp(name, e, strlen(e)) == 0` exactly when they are equal |
| LostExpression.NamesAreCStrings | autotools/find_src/lost_fucking_souls/expression_defs.c:4-12 | the draft's names are C strings |
| LostExpression.GetPrimary | autotools/find_src/lost_fucking_souls/expression.c:205-229 | `get_primary` succeeds exactly when a name equals the word, and returns that index; otherwise it returns EXPR_ERR_INVALID_PRIMARY with `*primary` kept |
| LostExpression.PrimaryIndexFrom | autotools/find_src/lost_fucking_souls/expression.c:205-229 | the first equal entry from a position on is the one found |
| LostExpression.NodeFillResult | autotools/find_src/lost_fucking_souls/expression.c:173-197 | filling a node for a known primary. It succeeds exactly when the argument parses, and a malloc error comes only from a stat argument. A success is a well-formed node with that primary's evaluator and argument |
| LostExpression.PrimaryNodeFill | autotools/find_src/lost_fucking_souls/expression.c:236-252 | the fill, calling the argument parsers, computes that result |
| LostExpression.ParseNodeResult | autotools/find_src/lost_fucking_souls/expression.c:64-99 | parsing a pair: EXPR_ERR_INVALID_PRIMARY exactly for an unknown name. EXPR_ERR_NO_ARG exactly for a known name in the last position once the node is allocated. An argument error has an argument word; a success is the node filled from the following word |
| LostExpression.ParsePrimaryNode | autotools/find_src/lost_fucking_souls/expression.c:64-99 | the method computes that result |
| LostExpression.Swapped | autotools/find_src/lost_fucking_souls/expression.c:337-341 | entries i and j exchanged, and every other entry unchanged |
| LostExpression.SwappedSameWords | autotools/find_src/lost_fucking_souls/expression.c:337-341 | an exchange keeps the same words |
| LostExpression.Swap | autotools/find_src/lost_fucking_souls/expression.c:337-341 | `swap` exchanges two entries of the array and nothing else |
| LostExpression.PermutatedShowsCulprit | autotools/find_src/lost_fucking_souls/expression.c:45-55 | the permuted array holds the same words, with the bad primary first and, for an invalid argument, its argument second; success and a malloc error leave it as it was |
| LostExpression.Permutated | autotools/find_src/lost_fucking_souls/expression.c:45-55 | what `permutate_args` leaves in the array for each error (a definition; `PermutatedShowsCulprit` and `CreateFromCulprits` prove the culprits come first) |
| LostExpression.PermutateArgs | autotools/find_src/lost_fucking_souls/expression.c:321-332 | `permutate_args` leaves exactly that array |
| LostExpression.CreateFrom | autotools/find_src/lost_fucking_souls/expression.c:23-34 | the creation loop: an error keeps no nodes and names the position of a pair, an even distance from the start, whose `expression_parse_primary_node` gives that very error, with an argument word after it for an invalid argument; a success has only well-formed nodes |
| LostExpression.CreateFromFirstError | autotools/find_src/lost_fucking_souls/expression.c:23-31 | that pair is the first to fail: every pair before it parses |
| LostExpression.CreateFromCulprits | autotools/find_src/lost_fucking_souls/expression.c:7-30 | as `expression_create` documents: after a failed creation the word moved to `expr_args[0]` for EXPR_ERR_INVALID_PRIMARY names no primary, and for an invalid argument `expr_args[0]` is a primary and `expr_args[1]` the argument its fill rejected |
| LostExpression.CreateFromLength | autotools/find_src/lost_fucking_souls/expression.c:23-34 | a success reads the words in pairs: twice the number of nodes is the number of words |
| LostExpression.CreateFromHead | autotools/find_src/lost_fucking_souls/expression.c:25-32 | the first node of a success is the one parsed from the first two words |
| LostExpression.CreateFromTail | autotools/find_src/lost_fucking_souls/expression.c:32-33 | after its first node, a success goes on as the creation two words later |
| LostExpression.CreateFromPair | autotools/find_src/lost_fucking_souls/expression.c:23-34 | node k of a success is the node parsed from words 2k and 2k+1 |
| LostExpression.Expression.constructor | autotools/find_src/lost_fucking_souls/expression.h:29-32 | a new expression has no nodes |
| LostExpression.Expression.Append | autotools/find_src/lost_fucking_souls/expression.c:134-147 | `expression_append` adds the node at the tail; the existing order is kept |
| LostExpression.Expression.Evaluate | autotools/find_src/lost_fucking_souls/expression.c:106-129 | `expression_evaluate` is the short-circuit conjunction of the nodes' evaluators, so true for no nodes. It stops after the first false node |
| LostExpression.NodeHolds | autotools/find_src/lost_fucking_souls/expression.c:112-126 | the evaluator `set_primary_eval_func` put in the node, applied to its argument and the file (a definition; `Expression.Evaluate` states the conjunction over it) |
| LostExpression.Expression.Delete | autotools/find_src/lost_fucking_souls/expression.c:152-166 | `expression_delete` leaves `*expression` NULL |
| LostExpression.Expression.Create | autotools/find_src/lost_fucking_souls/expression.c:14-40 | `expression_create` returns the creation loop's result. On success it holds the parsed nodes and leaves the words as they were; on an error it holds no nodes and the culprits are moved to the front |

## Left out

- Memory release: every `free`, the leaks on error paths, the incomplete key release at `bst.c:107` and the `free(node)` on the address of the node pointer at `lost_fucking_souls/expression.c:95` are not modelled. Dafny has no explicit deallocation, so the delete operations are modelled as "the structure becomes empty".
- Aliasing: the linked lists and expression lists are sequences held by a class. The tree's parent back-links are a zipper (a focus subtree with the path of frames above it). Sharing a node between two structures cannot be expressed.
- Allocation, `stat`, `clock_gettime`, `rand` and the result of each write are parameters: a verdict per call, a `statOf` map, an optional clock reading, an arbitrary pivot index and an "output ok" verdict. Which of them happens is not modelled.
- `strcoll` is an abstract comparison assumed to be a strict total order; the byte order of the C locale is proved to be one. Locale-dependent collation is not modelled, and `tolower` is the ASCII one.
- `fork`, `execvp` and `waitpid` in `eval_exec` (and in the -exec case of `expression_prim.c`) are a `run` verdict on the words to run. The process handling is not modelled, nor the `printf` of `argv[0]` that the child of `expression_prim.c:114` makes before every `execvp`.
- Output: only `bst_inorder_out` is modelled, as the sequence of writes with a verdict per write. `qs_data_out` (`dir_arr.c:129`), `f_list_data_out` (`f_list.c:173`) and `dir_long_out_print` (`long_out.c:309`) are not modelled: they are loops of `fprintf` over the stored entries. Text formatting by `printf` is not modelled.
- The user, group and date strings and `long_out_parse` are a `parse` parameter of `dir_long_out_create`. They wrap `getpwuid`, `getgrgid`, `localtime` and `strftime`.
- Directory enumeration and command-line handling are not part of this model: `main`, `get_options`, `get_entries`, `parse_entry`, the `output_ent_*` functions, `ls_perror`, and `find.c` with its `fts` walk. They are `opendir`, `readdir`, `getopt` and `printf` plumbing.
- `primary_delete_arg` only releases memory and is not modelled.
- `time_t` and `long` are unbounded integers in the time arithmetic; only `strtol` models the long range.
- CString.Strtol: reads the optional sign and decimal digits after ASCII white space and clamps to the long range. Locale-specific white space and bases other than 10 are not modelled.
- FindExpression.Expression.Delete: empties the node list, whereas `expression_delete` leaves `*expression` pointing at the released head.
- LostExpression.NodeFillResult: `primary_node_fill` is called at `lost_fucking_souls/expression.c:87` but defined in no file of the draft. It is reconstructed from `get_primary_arg` and `set_primary_eval_func` in the same file.
- LostExpressionDefs.StartTime.SetStartTime: the draft assigns `start_time_day` and `start_time_min` without declaring them. They are the fields of a StartTime object that starts at 0.
- Ls.GetFullPath: requires a non-empty path, because the source reads `path_buf[strlen(path)-1]`, which lies before the buffer when the path is empty.
- DirArr.Qs.Resize: when `qs_add_elem` calls it, `arr_len` is already one past the old capacity, and the copy loop reads one slot beyond the old array. That slot reads as empty here; the out-of-bounds read itself is not modelled.
- DirArr.Qs.AddElem: requires `arr_len` below INT_MAX, because the source's `int` would overflow on the increment.
- FindPrimParse.ArgParseResult: dispatches to the corrected `get_arg_long` and `get_arg_argv` (see Findings). As written, a long argument such as "-mmin 5" consumes nothing and reports success, and a failed `argv_dest` allocation reports success.
- FindPrimParse.PrimaryArgParse: computes that corrected result, not the one of the code as written.
- FindExpression.CreatePrimaryResult: its node, argument and cursor are those of the corrected `primary_arg_parse`. As written, "-mmin 5" gives a node with no argument and leaves "5" to be read as the next primary, so the creation reports EXPR_ERR_PRIMARY.
- FindExpression.CreatePrimary: computes that corrected result.
- FindExpression.CreateFrom: the creation loop over the corrected parse, so "-mmin 5" is accepted here where the source rejects it with EXPR_ERR_PRIMARY.
- FindExpression.CreateFromConsumesAll: stated over the corrected parse.
- FindExpression.Expression.Create: builds the list with the corrected parse.
- FindExpression.Expression.Evaluate: evaluates each node with the corrected `primary_evaluate` (see Findings), through `FindExpression.Expression.Holds`. As written, `expression_prim_eval.c:44-45` gives `eval_mtime` the start minute, so with the clock at 86400 a file modified at 86400 fails "-mtime 0" in the source and passes here (`FindPrimEval.MtimeComparesMinutesWithDays`).
- LsList.LsList.AddOrdered: uses the corrected fill check (see Findings), so a failed lower-cased copy reports LIST_ERR_MALLOC. As written, the insertion goes on with a NULL lower-cased key, which `strcoll` may not be given.
- FindList.FindList.AddOrdered: the same for the find list's NULL lower-cased path.
- The red-black tree keeps its nodes as a value tree inside the SortTree object. A rotation is proved to rebuild the same in-order sequence and parent chain, but not to reuse the same nodes.

## Findings

| source | as written | input that shows it | evidently intended | confidence | as-written member | corrected member |
|---|---|---|---|---|---|---|
| autotools/ls_src/list.c:61-67 | `list_add_ordered` compares the new node with the head only for `ord < 0`; a node equal to the head falls through to the loop, which starts at the second node | a list holding "a" and a new entry "a" | a node equal to the head is a duplicate, `LIST_ERR_DUP_ENTRY` | not executed | LsList.AddOrderedDuplicatesHead | LsList.AddOrderedCheckedKeepsIncreasing |
| autotools/find_src/list.c:60-65 | `list_add_ordered` never compares with the head itself and always links the node in after it | a list holding "b" and a new path "a" | "a" becomes the new head, and a path equal to the head is a duplicate | not executed | FindList.AddOrderedNeverBeforeHead | FindList.AddOrderedHeadKeepsIncreasing |
| autotools/ls_src/list.c:117 | the lower-cased copy is tested with `data->f_name_lower && errno`, so a NULL copy passes | `lower_string_cpy` failing after the name copy succeeded | `data->f_name_lower == NULL` reports `LIST_ERR_MALLOC` | not executed | LsList.NodeFillDataMissesLowerFailure | LsList.NodeFillData |
| autotools/find_src/list.c:108 | the lower-cased path is tested with `data->path_lower && errno`, so a NULL copy passes | `lower_string_cpy` failing after the path copy succeeded | `data->path_lower == NULL` reports `LIST_ERR_MALLOC` | not executed | FindList.NodeFillDataMissesLowerFailure | FindList.NodeFillData |
| autotools/ls_src/long_out.c:37 | the allocation test is `dir_long_out->entries && errno`, true only for a successful malloc with a stale errno | a failing malloc of `entries` | `entries == NULL` reports failure | not executed | LongOut.CreateAllocTestInverted | LongOut.DirLongOut.Create |
| autotools/ls_src/ls.c:164 | the bound counts the path, the name and the terminator but not the '/' written between them | path "a", name "b", a buffer of 3 bytes: the check passes and 4 bytes are written | the '/' counted when the path does not already end in one | not executed | Ls.PathCheckMissesSeparator | Ls.GetFullPath |
| autotools/find_src/expression_prim_parse.c:81-88 | `get_arg_long` takes the non-NULL `end_ptr` that `strtol` always sets as a failure, so it stores nothing and leaves the cursor; it then returns 0 in place of `ret` | "-mmin 5": the 5 is never read, and the next word is parsed as a primary | success exactly when `*end_ptr` is the terminator, storing the value and moving the cursor, as its comment promises; -1 otherwise | not executed | FindPrimParse.GetArgLongAsWritten | FindPrimParse.GetArgLong |
| autotools/find_src/expression_prim_parse.c:173-176 | a failure of the `argv_dest` malloc frees the other two blocks but leaves `ret` at 0 | "-exec ls ;" with the third malloc failing | `ret = -1`, as for the other two allocations | not executed | FindPrimParse.ArgvDestFailureReportsSuccess | FindPrimParse.GetArgArgv |
| autotools/find_src/expression_prim_eval.c:44-45 | `eval_mtime` is given `start_time_min` where it counts days | clock 86400, a file modified at 86400, "-mtime 0": rejected | `start_time_day`, as the other layers pass | not executed | FindPrimEval.MtimeComparesMinutesWithDays | FindPrimEval.PrimaryEvaluateMeaning |
