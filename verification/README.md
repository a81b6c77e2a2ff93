# Verified model of the adaptive radix trees and the B-tree

Two ordered maps over fixed-size byte keys: `ar_prefix_tree`, which compresses paths, and `ar_tree`, which
does not. Both keep their keys in a tree of nodes that come in four layouts (4, 16, 48 and 256 children),
each a different arrangement of in-place arrays, replaced as a node fills or drains. The project models the
pointers, the arrays and the stored prefix bytes, and proves that the trees are the sorted maps they stand
for. It also models the key encoding that makes byte order the order of the keys, and the B-tree that ships
beside the radix trees: its in-place node moves, its insertion with biased splits, and its erasure, which merges
and rebalances on the way up and still hands back the next value.

## How the model is built

| file | what it holds |
|---|---|
| `Bytes.dfy` | byte strings, the prefix order and the `memcmp` order |
| `Trie.dfy` | the abstract trie: nodes named by the bytes all keys below them share; its four edits and its order |
| `Nodes.dfy` | the class `Node`: tag, parent, header, the four array layouts and what they represent (`kids`) |
| `RadixTree.dfy` | the class `RadixTree`: live nodes, parent and child pointers, and the pointer surgery both trees share |
| `Tree.dfy` | the abstract map, the descent, and single insertions and erasures, for both trees |
| `PrefixTree.dfy` | `ar_prefix_tree`: find, insert, emplace, erase by key, erase by iterator |
| `ArTree.dfy` | `ar_tree`: the same, with chains of one-child nodes, and lower and upper bounds |
| `Iteration.dfy` | traversal, `--` after `++`, `operator==`, range erase |
| `Shape.dfy` | history independence of both trees and the contraction that leads from one to the other |
| `Runs.dfy` | whole runs of operations against a plain map |
| `BNode.dfy` | the class `BNode`: a B-tree node, its two arrays, and the moves within and between nodes |
| `Ranges.dfy` | sorted values between two bounds: cutting and joining them, their keys, slots and gaps |
| `BTree.dfy` | the class `BTree`: the linked nodes, the steps that rearrange them, iterators, search, insertion and erasure |
| `BRuns.dfy` | whole runs of B-tree operations against a plain map |
| `KeyTransform.dfy` | `byte_swap`, `key_transform` on integers and nested pairs, `value_compare` |

A tree carries three ghost fields. `trie` says what its pointers mean, `at` maps the name of every live node to
the node, `Repr` is the set of objects it owns. `Wired` says that pointers, layouts, depths, stored prefix
bytes and parent pointers agree with `trie`, and that live nodes share no array. `Sound` adds that every
layout fits the number of children, that no inner node is childless and that the element count is the number
of keys. `PrefixTrees.Valid` adds that every inner node has two children; `ArTrees.Valid` adds that inner
nodes are one byte apart and that each has two keys below it. `Contents` is the abstract map.

The size of a key is the constant `length` of a tree, any number from 1 to 65536, so that the code for
prefixes longer than the eight stored bytes is live. The abstract type `Value` stands for the mapped values.

The B-tree stands alone. A `BNode` carries ghost copies of what its arrays hold (`vals`, `kids`), the bounds `lo`
and `hi` between which all keys below it lie, and its height. A `BTree` carries `nodes`, the map `content` that it
stands for and, for each key, the node that is its `home`. `Linked` says that arrays, child and parent pointers,
positions, bounds and heights agree, that every value of every node is in `content` and at home there, that a leaf
holds every key between its bounds, and that leftmost and rightmost leaf are where the root says. `Filled(holes)`
says that every node outside `holes` holds a value; every operation starts and ends with no hole. `Sized` says that
the size kept at an internal root is the number of keys. Keys are real numbers with `<`: every countable strict
order embeds in it, and so does that of any key type of a program. `Data` is any type, and the number of values a node
can hold is any number from 3 up.

## Model

| member | source | states |
|---|---|---|
| Nodes.InsertAt | include/art/ar_prefix_tree.h:555-560 | the overlapping move to the right followed by the store inserts one element into the used part of the array |
| Nodes.Node.Insert | include/art/ar_prefix_tree.h:552-562 | in all four layouts, inserting an absent byte adds exactly that child, keeps the layout's own invariant and counts one more |
| Nodes.Node.InsertIndexed | include/art/ar_prefix_tree.h:996-1002 | a Node48 takes a free slot below 48 and keeps its slot indices injective |
| Nodes.Node.Erase | include/art/ar_prefix_tree.h:564-573 | in all four layouts, erasing a present byte removes exactly that child and counts one less |
| Nodes.Node.Find | include/art/ar_prefix_tree.h:575-582 | the child of the byte, or null when it has none |
| Nodes.Node.UpdateChild | include/art/ar_prefix_tree.h:593-599 | redirects the child of a byte that has one and leaves every other node alone |
| Nodes.Node.Next | include/art/ar_prefix_tree.h:617-625 | the child of the least byte above a bound, or null when there is none, in every layout |
| Nodes.Node.Prev | include/art/ar_prefix_tree.h:637-645 | the child of the greatest byte below a bound, or null when there is none, in every layout |
| Nodes.Node.GrowTo16 | include/art/ar_prefix_tree.h:692-700 | the grown node represents the same children, keeps header and prefix, and becomes their parent |
| Nodes.Node.GrowTo48 | include/art/ar_prefix_tree.h:910-919 | the same for the indexed layout: every byte with a child has its own slot, every other byte the marker |
| Nodes.Node.GrowTo256 | include/art/ar_prefix_tree.h:1122-1130 | the same for the direct layout |
| Nodes.Node.ShrinkTo4 | include/art/ar_prefix_tree.h:480-488 | the shrunk node represents the same children in increasing byte order and becomes their parent |
| Nodes.Node.ShrinkTo16 | include/art/ar_prefix_tree.h:703-713 | the same, from the indexed layout |
| Nodes.Node.ShrinkTo48 | include/art/ar_prefix_tree.h:922-935 | the same, from the direct layout |
| Nodes.DistinctFit | include/art/ar_prefix_tree.h:996-999 | distinct owners of slots are no more than the children, so that a Node48 that is not full has a free slot |
| RadixTrees.SplitStores | include/art/ar_prefix_tree.h:1815-1848 | after a split both nodes store the right prefix bytes, whether the prefix fits the buffer or not |
| RadixTrees.JoinStores | include/art/ar_prefix_tree.h:1874-1886 | after folding a one-way node the child stores the right prefix bytes |
| RadixTrees.SplitThenCompress | include/art/ar_prefix_tree.h:1811-1891 | folding a split node again restores every meaningful stored byte of the child, for every prefix length and position |
| RadixTrees.RadixTree.UpdateChildPtr | include/art/ar_prefix_tree.h:1903-1911 | redirects the parent's slot for the key, or the root pointer below the dummy node, and nothing else |
| RadixTrees.RadixTree.Resize | include/art/ar_prefix_tree.h:2387-2450 | grow or shrink followed by the relink keeps the tree wired and its trie the same, and replaces exactly one live node |
| RadixTrees.RadixTree.HangLeaf | include/art/ar_prefix_tree.h:1994-2005 | a new leaf below an inner node keeps the tree wired; the trie gains exactly that key at that node |
| RadixTrees.RadixTree.UnhangLeaf | include/art/ar_prefix_tree.h:2090-2094 | erasing a leaf from its parent keeps the tree wired; the trie loses exactly that key |
| RadixTrees.RadixTree.ForkLeaf | include/art/ar_prefix_tree.h:1710-1719 | a Node4 put above a leaf at the tiebreaking byte keeps the tree wired and adds exactly that node to the trie |
| RadixTrees.RadixTree.SplitPrefix | include/art/ar_prefix_tree.h:1811-1854 | splitting a prefix and relinking keeps the tree wired and adds exactly the upper node to the trie |
| RadixTrees.RadixTree.Fold | include/art/ar_prefix_tree.h:1861-1891 | folding a one-way node into its leaf or inner child and relinking keeps the tree wired and removes exactly that node |
| RadixTrees.RadixTree.Minimum | include/art/ar_prefix_tree.h:601-603 | the descent ends at the leaf of the least key below the node |
| RadixTrees.RadixTree.Maximum | include/art/ar_prefix_tree.h:609-611 | the descent ends at the leaf of the greatest key below the node |
| RadixTrees.RadixTree.Successor | include/art/ar_prefix_tree.h:617-625 | the climb ends at the leaf of the least key above k in the whole tree, or at the end marker exactly when there is none |
| RadixTrees.RadixTree.Predecessor | include/art/ar_prefix_tree.h:637-645 | the climb ends at the leaf of the greatest key below k, or wraps to the last leaf when there is none |
| RadixTrees.RadixTree.Begin | include/art/ar_prefix_tree.h:1617-1623 | the leaf of the least key, or the end marker exactly when the tree is empty |
| RadixTrees.RadixTree.Increment | include/art/ar_prefix_tree.h:1471-1480 | the next leaf in byte order, or the end marker after the last |
| RadixTrees.RadixTree.Decrement | include/art/ar_prefix_tree.h:1490-1499 | the previous leaf in byte order; the last leaf from the end marker; the end marker in a tree that never held a key |
| Tries.InterposeWF | include/art/ar_prefix_tree.h:1811-1854 | a node put between a node and its parent keeps the trie well-formed |
| Tries.HangWF | include/art/ar_prefix_tree.h:1994-2005 | hanging an absent key at the byte where it leaves a node keeps the trie well-formed |
| Tries.UnhangWF | include/art/ar_prefix_tree.h:2090-2094 | taking a leaf away keeps the trie well-formed |
| Tries.ContractWF | include/art/ar_prefix_tree.h:1861-1891 | replacing a one-way node by its child keeps the trie well-formed |
| Trees.NotFull256 | include/art/ar_prefix_tree.h:2387-2412 | a full node that lacks a byte is no Node256, so grow is never called on one |
| Trees.MakeRoom | include/art/ar_prefix_tree.h:1740-1743 | a full node is grown, any other left alone; keys, leaves and trie stay the same and there is room for one more |
| Trees.InsertLeaf | include/art/ar_prefix_tree.h:1994-2005 | completes the second phase of emplace: the temporarily ill-formed tree becomes sound with exactly the new key |
| Trees.Clear | include/art/ar_prefix_tree.h:1664-1671 | the tree is empty and sound |
| PrefixTrees.PesPrefixMismatchPos | include/art/ar_prefix_tree.h:206-215 | the first mismatch among the stored bytes, or the whole prefix length exactly when all of them agree |
| PrefixTrees.PrefixMismatchPos | include/art/ar_prefix_tree.h:177-194 | the first position where the key leaves the whole prefix, bytes past the eighth included |
| PrefixTrees.Find | include/art/ar_prefix_tree.h:2133-2162 | the leaf of k exactly when k is stored, end() otherwise; the trailing throw is not reached |
| PrefixTrees.SplitOnMismatch | include/art/ar_prefix_tree.h:1724-1731 | after one turn at an inner node the key either passes the node or has its gap there; no key or leaf changed |
| PrefixTrees.Tiebreak | include/art/ar_prefix_tree.h:1703-1719 | the loop over j finds the tiebreaker and leaves a one-child node where k belongs; the throw is not reached |
| PrefixTrees.Insert | include/art/ar_prefix_tree.h:1674-1757 | the compression invariant holds again, the map gains the pair only if the key was absent, the flag says so, and no other leaf moves |
| PrefixTrees.GetInsertUniquePos | include/art/ar_prefix_tree.h:1923-1984 | the dummy node of an empty tree, the leaf of a stored key, or an inner node with room where k belongs; keys and leaves unchanged |
| PrefixTrees.Emplace | include/art/ar_prefix_tree.h:1773-1800 | the two-phase path has the contract of Insert, word for word |
| PrefixTrees.FixAfterErase | include/art/ar_prefix_tree.h:2107-2119 | shrinking or folding the drained node restores the compression invariant without touching any leaf |
| PrefixTrees.EraseKey | include/art/ar_prefix_tree.h:2020-2074 | erases exactly k, returns 1 if it was stored and 0 otherwise, keeps the compression invariant; the throw is not reached |
| PrefixTrees.EraseAt | include/art/ar_prefix_tree.h:2076-2099 | erases exactly the key of the iterator and returns the leaf of the next key, which stays where it is, or end() |
| PrefixTrees.HangCompressed | include/art/ar_prefix_tree.h:1737-1751 | filling the one gap makes every inner node branch |
| PrefixTrees.ContractCompressed | include/art/ar_prefix_tree.h:2107-2119 | removing the one-way node makes every inner node branch |
| ArTrees.Find | include/art/ar_tree.h:1925-1949 | the leaf of k exactly when k is stored, end() otherwise |
| ArTrees.Chain | include/art/ar_tree.h:1575-1592 | the chain of one-child nodes ends where the two keys part; every inner node then has two keys below it once k is hung |
| ArTrees.Insert | include/art/ar_tree.h:1548-1617 | every inner node again has two keys below it; the map gains the pair only if the key was absent, and no other leaf moves |
| ArTrees.GetInsertUniquePos | include/art/ar_tree.h:1675-1732 | as for the prefix tree, with the whole chain built and two keys below every inner node once k is hung |
| ArTrees.Emplace | include/art/ar_tree.h:1640-1659 | the two-phase path has the contract of Insert, word for word |
| ArTrees.GrandparentSlot | include/art/ar_tree.h:1905-1906 | the byte of the erased key at depth - j - 1 names the grandparent's slot at every iteration of the collapse loop |
| ArTrees.CollapseAbove | include/art/ar_tree.h:1880-1913 | the collapse loop ends with two keys below every inner node again, without touching any other leaf |
| ArTrees.FixAfterErase | include/art/ar_tree.h:1863-1913 | shrinking or collapsing after an erasure restores the invariant in all cases |
| ArTrees.LeafSibling | include/art/ar_tree.h:1863-1913 | the parent of a leaf has another child, so the node an erasure drains is never left childless |
| ArTrees.EraseKey | include/art/ar_tree.h:1763-1808 | erases exactly k, returns 1 if it was stored and 0 otherwise, and keeps the invariant |
| ArTrees.EraseAt | include/art/ar_tree.h:1810-1833 | erases exactly the key of the iterator and returns the leaf of the next key, or end() |
| ArTrees.LowerBound | include/art/ar_tree.h:1977-2007 | the least stored key not below k, or end() when there is none; it calls successor on the null previous_node exactly when the only stored key is below k |
| ArTrees.UpperBound | include/art/ar_tree.h:2041-2071 | the least stored key above k, or end() when there is none; it calls successor on the null previous_node exactly when the only stored key is not above k |
| Runs.BoundsPastOnlyKey | include/art/ar_tree.h:1977-2071 | on a tree with one key, both bounds of any greater key make that null call |
| Iteration.Traverse | include/art/ar_prefix_tree.h:1471-1480 | from begin() to end(), ++ visits every stored key exactly once in strictly increasing byte order |
| Iteration.IncrementThenDecrement | include/art/ar_prefix_tree.h:1471-1499 | -- undoes ++, at the last leaf too |
| Iteration.Equal | include/art/ar_prefix_tree.h:2462-2466 | operator== holds exactly when both trees hold the same map |
| Iteration.EraseRange | include/art/radix_map.h:288-293 | over an `ar_prefix_tree` and over an `ar_tree` alike, erases exactly the keys in [first, last), moves no other leaf, keeps last valid and returns it |
| Shapes.InnerIffParts | include/art/ar_prefix_tree.h:1674-1757 | the inner nodes of a prefix tree are exactly the prefixes after which two stored keys part |
| Shapes.Canonical | include/art/ar_prefix_tree.h:2107-2119 | compressed tries over the same keys are the same trie |
| Shapes.HistoryIndependence | include/art/ar_prefix_tree.h:1674-1757 | two prefix trees over the same keys agree in nodes, children, depths, prefixes, layouts and stored prefix bytes, whatever built them |
| Shapes.InnerIffShared | include/art/ar_tree.h:1880-1913 | the inner nodes of an ar_tree are exactly the prefixes that two stored keys share |
| Shapes.ArHistoryIndependence | include/art/ar_tree.h:1548-1617 | two ar_trees over the same keys agree in the same way |
| Shapes.ContractionIsPrefixTree | include/art/ar_tree.h:1575-1592 | contracting the one-way nodes of an ar_tree, in any order, ends in the prefix tree of the same keys |
| Runs.Run | include/art/ar_prefix_tree.h:1674-2119 | every run of inserts, emplaces, erasures by key and by iterator and clears from the empty prefix tree keeps the compression invariant and agrees with a plain map |
| Runs.ArRun | include/art/ar_tree.h:1548-1913 | the same for ar_tree |
| Runs.InsertThenErase | include/art/ar_prefix_tree.h:1674-2119 | erasing a key just inserted restores the trie, the map and every leaf |
| Runs.ContractUndoesInterpose | include/art/ar_prefix_tree.h:1811-1891 | folding a split node away gives back the trie |
| Runs.UnhangUndoesHang | include/art/ar_prefix_tree.h:1994-2005 | taking a hung key away gives back the trie |
| BNodes.BNode.InsertValue | libs/cpp-btree/btree.h:1420-1436 | in a leaf, the value swapped in from the back comes to stand at position i and all others keep their order |
| BNodes.BNode.RemoveValue | libs/cpp-btree/btree.h:1439-1455 | in a leaf, exactly the value at position i goes and the others keep their order |
| BNodes.BNode.RebalanceRightToLeft | libs/cpp-btree/btree.h:1457-1501 | for any legal to_move, the values of both nodes and the delimiter read the same in order before and after; moved children know their new parent and position |
| BNodes.BNode.RebalanceLeftToRight | libs/cpp-btree/btree.h:1504-1546 | the same in the other direction |
| BNodes.BNode.Split | libs/cpp-btree/btree.h:1549-1587 | both halves and the delimiter in the parent read as the node did, the half at whose end the value is to come in is empty, the halves are else even, and all moved and shifted children know parent and position |
| BNodes.BNode.Merge | libs/cpp-btree/btree.h:1590-1619 | the node reads as left, delimiter and right did, the parent loses delimiter and right child, and all moved children know parent and position |
| BNodes.BNode.SwapInternal | libs/cpp-btree/btree.h:1622-1657 | values, children and counts change places, and the children follow, also where one node is a child of the other |
| BNodes.BNode.LinearSearch | libs/cpp-btree/btree.h:594-603 | the number of keys below k, or not above k for the upper bound |
| BNodes.BNode.BinarySearch | libs/cpp-btree/btree.h:624-636 | the same |
| BTrees.BTree.Pull | libs/cpp-btree/btree.h:1457-1501 | rebalancing two neighbours from right to left keeps the whole tree linked |
| BTrees.BTree.Push | libs/cpp-btree/btree.h:1504-1546 | the same from left to right |
| BTrees.BTree.SplitNode | libs/cpp-btree/btree.h:2074-2085 | splitting a child of a node with room keeps the tree linked, with the rightmost leaf brought up to date |
| BTrees.BTree.MergeNodes | libs/cpp-btree/btree.h:2094-2104 | merging two neighbours that fit into one keeps the tree linked; the right one is no longer in it |
| BTrees.BTree.RaiseRoot | libs/cpp-btree/btree.h:2055-2061 | a new internal root above the leaf root keeps the tree linked |
| BTrees.BTree.DeepenRoot | libs/cpp-btree/btree.h:2062-2071 | the swap trick moves the contents of the root one level down, keeps the root node in place and the tree linked |
| BTrees.BTree.OneSpans | libs/cpp-btree/btree.h:2235-2245 | on each level at most one node can hold a key, so there is one path to it |
| BTrees.BTree.LeavesLevel | libs/cpp-btree/btree.h:1985-2091 | in a linked tree all leaves are equally many steps below the root |
| BTrees.BTree.SizeIsCount | libs/cpp-btree/btree.h:1135-1139 | size() is the number of keys, for an empty tree, a leaf root and an internal root |
| BTrees.BTree.ShiftLeft | libs/cpp-btree/btree.h:1994-2017 | whichever node the insert position falls into after values have moved left has room, and the key's place is there |
| BTrees.BTree.ShiftRight | libs/cpp-btree/btree.h:2022-2043 | the same to the right |
| BTrees.BTree.BelowSlot | libs/cpp-btree/btree.h:2047-2052 | however the recursive call rearranges the levels above, the full node is now a child of the node with room |
| BTrees.BTree.RebalanceOrSplit | libs/cpp-btree/btree.h:1985-2091 | ends, through any number of levels and a new root, with a node of the same height that has room and is where the key belongs; a neighbour with two free places, or one on the far side, takes over all it can or half, and no node is added; else exactly the nodes that full levels need are, and the halves are empty at an end or even |
| BTrees.BTree.Bias | libs/cpp-btree/btree.h:1999-2042 | the guards and the numbers to move come to: two free places, or one away from the insertion, and all of them or half |
| BTrees.BTree.Regrow | libs/cpp-btree/btree.h:2208-2216 | a full leaf root gets as many places as the least power of two that is enough, or as a node can have |
| BTrees.BTree.InternalInsert | libs/cpp-btree/btree.h:2199-2226 | the absent key is in, the iterator points at it, no node is empty, the size is right, and a leaf split at an end leaves the value alone in its leaf |
| BTrees.BTree.InsertUnique | libs/cpp-btree/btree.h:1741-1762 | first-wins map insertion from any tree, the empty one included; the flag says whether the key was absent, the iterator points at it |
| BTrees.BTree.InsertHinted | libs/cpp-btree/btree.h:1764-1786 | whatever valid iterator is the hint, the map is that of insertion without one |
| BTrees.BTree.TryMergeOrRebalance | libs/cpp-btree/btree.h:2108-2156 | it merges exactly if the node fits into a neighbour, the left one first, and then only the parent may be empty; else no node is empty and the node evens out with a neighbour that has values to spare; the iterator still stands in the gap of the erased key |
| BTrees.BTree.TryShrink | libs/cpp-btree/btree.h:2158-2183 | no node is empty any more, the root is gone exactly when nothing is left, and the iterator's leaf keeps the gap |
| BTrees.BTree.LeftChildSpans | libs/cpp-btree/btree.h:1863-1869 | the predecessor of an internal value lies below the child on its left, in a leaf |
| BTrees.BTree.SwapAndRemove | libs/cpp-btree/btree.h:1863-1877 | swapping an internal value with its predecessor and removing it from the leaf erases exactly that key and keeps the tree linked |
| BTrees.BTree.Repair | libs/cpp-btree/btree.h:1887-1907 | the loop ends with no empty node and an iterator in the gap; it stops at the root, at a node with enough values, or at one that fits into no neighbour, after a merge on every level below |
| BTrees.BTree.CourseTaken | libs/cpp-btree/btree.h:1887-1907 | where the merges end is settled by the sizes in the tree before the erasure |
| BTrees.BTree.NextAfterPrev | libs/cpp-btree/btree.h:1909-1919 | one more ++ from the predecessor's new place gives the value after the erased one |
| BTrees.BTree.Erase | libs/cpp-btree/btree.h:1861-1920 | exactly the pointed value is gone; the result points at the next value, or is end(); no node is empty, and depth, leftmost, rightmost and size are right; as many nodes go as there are merges, and one more if the root is used up |
| BTrees.BTree.EraseUnique | libs/cpp-btree/btree.h:1932-1940 | erases exactly the key, and returns 1 if it was there and 0 otherwise |
| BTrees.BTree.EraseRange | libs/cpp-btree/btree.h:1923-1929 | erases exactly the keys between the iterators, none if they are the same, and returns their number, though the erasures may move what the second one points at |
| BTrees.BTree.InternalLocate | libs/cpp-btree/btree.h:2235-2245 | ends in the leaf and at the position where the key is or would be, by linear or by binary search |
| BTrees.BTree.InternalLast | libs/cpp-btree/btree.h:2186-2195 | climbs to the first value not below the key, or to no node exactly when there is none |
| BTrees.BTree.SearchBound | libs/cpp-btree/btree.h:2264-2295 | the first value not below k, or above k, in the whole tree, or end() |
| BTrees.BTree.FindUnique | libs/cpp-btree/btree.h:2297-2313 | the value of k if it is stored, no node otherwise |
| BTrees.BTree.Increment | libs/cpp-btree/btree.h:1663-1683 | from any value, in a leaf or an internal node, to the next one, or to the end after the last |
| BTrees.BTree.Decrement | libs/cpp-btree/btree.h:1703-1723 | from any value to the one before it; from the first, to the position -1 of its leaf |
| BTrees.BTree.IncrementThenDecrement | libs/cpp-btree/btree.h:1663-1723 | -- undoes ++, back to the same node and position, after the last value too |
| BTrees.BTree.IncrementBy | libs/cpp-btree/btree.h:1686-1700 | increment_by(n) passes over exactly n keys, for any n up to the distance to the end |
| BTrees.BTree.AheadUnique | libs/cpp-btree/btree.h:1686-1700 | there is one iterator n keys on from a key |
| BTrees.BTree.IncrementByIsIncrements | libs/cpp-btree/btree.h:1686-1700 | increment_by(n) ends where n single increments do |
| BTrees.BTree.Traverse | libs/cpp-btree/btree.h:1663-1683 | ++ from begin() to end() visits every stored value once, in order |
| BTreeRuns.Replay | libs/cpp-btree/btree.h:1741-1940 | every run of insertions, hinted or not, and of erasures by key, by iterator and of ranges from the empty tree, for any node size, keeps the tree linked, filled and sized, and agrees with a plain map; after insertions alone a leaf root has the least power of two of places that is enough, and the root is internal beyond what a node can have |
| BTreeRuns.ReplayBoth | libs/cpp-btree/btree.h:1741-1940 | two runs that mean the same map read the same from begin() to end(), whatever the shapes of the trees |
| KeyTransforms.SwapInvolution | include/art/key_transform.h:11-39 | every byte_swap, signed or unsigned, is its own inverse |
| KeyTransforms.SignedSwap16 | include/art/key_transform.h:15-17 | promotion, arithmetic shift, mask and truncation swap the bytes of a signed word as of an unsigned one |
| KeyTransforms.SwapReverses64 | include/art/key_transform.h:29-33 | swapping reverses the bytes in memory |
| KeyTransforms.FlipAdds | include/art/key_transform.h:84-113 | flipping the sign bit adds half the range to the two's complement number |
| KeyTransforms.LessIsNumeric | include/art/key_transform.h:51-82 | memcmp on strings of one size compares the big-endian numbers they stand for |
| KeyTransforms.NumberOrder | include/art/key_transform.h:59-113 | the numbers that integer keys stand for are ordered as their machine words are: as bit-vectors when unsigned, by sign first when signed |
| KeyTransforms.TransformIsOrderIso | include/art/key_transform.h:59-140 | for keys of one type, any width, signed or not, and pairs nested at will: x < y exactly when memcmp orders the transformed keys so, and only equal keys transform alike |
| KeyTransforms.TransformWidth | include/art/key_transform.h:123-140 | a transformed integer has 1, 2, 4 or 8 bytes, and a pair as many as its parts together |
| KeyTransforms.PairNumber | include/art/key_transform.h:128-140 | for any parts, the big-endian number of a pair is that of the first, shifted by the width of the second, plus that of the second |
| KeyTransforms.PairIsWord16 | include/art/key_transform.h:128-140 | a pair of unsigned bytes h and l is stored as the word with the number 256 * h + l |
| KeyTransforms.PairIsWord32 | include/art/key_transform.h:128-140 | the same for two 16-bit words |
| KeyTransforms.PairIsWord64 | include/art/key_transform.h:128-140 | the same for two 32-bit words |
| KeyTransforms.PairOrder16 | include/art/radix_map.h:93-103 | pairs of unsigned bytes are in the order of the words they make up |
| KeyTransforms.PairOrder32 | include/art/radix_map.h:93-103 | the same for two 16-bit words |
| KeyTransforms.PairOrder64 | include/art/radix_map.h:93-103 | the same for two 32-bit words |
| KeyTransforms.TransformKey | include/art/key_transform.h:128-140 | the filled array has the width of the key and holds the bytes of the first part followed by those of the second |
| KeyTransforms.ValueCompare | include/art/radix_map.h:93-103 | the byte loop decides exactly as operator< on the keys |

## Where the code and its intent differ

- `std::move` to the right on overlapping ranges (`include/art/ar_prefix_tree.h:556-557`, `1874-1876`) is read as
  `memmove`: section 25.3.2 of ISO/IEC 14882:2011 leaves it undefined, but bytes and pointers are moved.
- `lower_bound` and `upper_bound` of `ar_tree` start with a null `previous_node`. The model keeps that and returns
  `NullPointer` where the code would dereference it; `LowerBound` and `UpperBound` say exactly when.
- `clear` and the erasure of the last element leave the dummy node's `_root` stale. `Wired` claims
  `dummy.root == root` only for a tree that is not empty; `Decrement` requires such a tree, or one that never held a key.
- The prefix length is stored in 16 bits. Keys are taken to be no longer than 65536 bytes, so that no prefix is
  truncated; the casts are modelled as reductions modulo 65536.
- The branch of `compress_node_into_child` for a leaf child is not reached: `shrink` has already put the leaf in
  the place of the node (`include/art/ar_prefix_tree.h:2417-2426`). `Fold` has the branch that is reached.

## Left out

- The containers over the B-tree, `insert_multi` and `erase_multi`, copying, `clear` and `swap` of B-trees, the
  compare-to searches, and `decrement` before the first value.
- The 8- or 16-bit fields `position` and `count` of a B-tree node are unbounded here; a compile-time assertion
  (`libs/cpp-btree/btree.h:1408-1410`) keeps them from overflowing.
- BTrees.BTree.SizeDown: the size is counted down after the value has left its leaf, not before.
- Copying of trees: the copy constructors of the larger layouts do not preserve the tree.
- `lower_bound`, `upper_bound` and `equal_range` of `ar_prefix_tree`, which return `end()` on any prefix mismatch.
- Move construction, `swap`, allocation and `delete` as such: a deleted node leaves `at`. Exceptions in `emplace_unique`.
- The class hierarchy of nodes is one class with a tag, and virtual calls are branches on the tag. `ar_tree`'s
  nodes are the same class with no prefix bytes.
- The prefix buffer is a value, not an array: moves within it are written as sequence expressions of the same bytes.
- RadixTrees.RadixTree.Resize: `grow` or `shrink` and the following `update_child_ptr` are one step; in `ar_tree` the
  two are separated by a return.
- ArTrees.CollapseAbove: a leaf that `shrink` takes out of its one-way parent is linked below the next node at once, not after
  the loop; the pointer so written is either written again by `fix_after_erase` or belongs to a node the loop deletes.
- RadixTrees.RadixTree.Decrement: not defined for a tree that was emptied, where the code reads a stale pointer.
- KeyTransforms.TransformIsOrderIso: fixed-size strings and big-endian machines are not covered; `operator<` on pairs is
  written with equality of the first parts, which is the same for the ordered types that occur.
- `operator<` on trees, reverse iterators, `radix_set`, the other forwards of `radix_map`, const duplicates.
