# Verified models of the device's algorithms

This project models, in Dafny, the parts of the repository whose correctness is not visible from one function:
the deflate compressor of busybox gzip, the LZO1X stream optimizer and the Adler-32 checksum of lzop, the version
order, the hash tables and the dependency check of dpkg, the two MD5 implementations of the web interface, and the
one-pass evaluator of expr. `dafny verify dfyconfig.toml` checks everything.

The main results:

- **gzip.** `GzipDeflate.Zip` runs the whole compressor (window, hash chains, lazy matching, Huffman trees, block
  choice, bit buffer) and ensures that a decoder written after RFC 1951 (`Rfc1951.Inflate`) gets back exactly the
  bytes that were read, for every input and every pattern of short reads. It also says which bits these are: the tokens
  are those of lazy matching over the strings that the hash chains visit (`GzipLazy`), blocks end where ct_tally asks for
  it, and every block has the encoding that its exact sizes call for (`GzipChoice`). On the way every stage has its own
  law: complete hash chains and the search (`GzipWindow`, `GzipMatcher`), the heap and the merged node list (`GzipHeap`,
  `GzipMerge`, `GzipForest`), optimality of every tree that needs no repair (`Huffman`, `GzipWeights`,
  `GzipOptimal`), code lengths, their overflow repair and their exact cost (`GzipSlots`, `GzipPass`, `GzipBitlen`,
  `GzipRepair`, `GzipReassign`, `GzipTree`), canonical codes (`Canonical`, `GzipCodes`), the run-length coding of the
  trees (`TreeCode`, `GzipTreeCode`, `GzipHeader`), tokens and their packed buffers (`TokenCode`, `GzipTally`,
  `GzipCompress`), blocks and their sizes (`BlockCode`, `GzipPlan`, `GzipSizes`, `GzipSend`, `GzipBlock`), and the bit
  buffer (`GzipBits`).
- **lzop.** `Lzo1xOptimizer.Optimize` rewrites a stream in place while it decodes it; the rewritten stream has the
  meaning it had before (`Lzo1xFormat.Decode`) and is exactly the byte form of its list of instructions after a
  rewriting from left to right that knows nothing of byte edits (`Lzo1xPeephole.Optimized`; `Lzo1xTrace` ties every branch
  to its rule). `Adler32.LzoAdler32` never overflows and is the checksum of RFC 1950.
- **dpkg.** `DpkgCompare.VersionCompare` is the order of the Debian Policy Manual, a total preorder, and
  `DpkgPolicy` says in the words of section 5.6.12 what this order is; double hashing
  visits every slot (`Probing`), so searches end and names have one index (`DpkgTables`); one pass over flat edges
  decides nested and/or groups (`DpkgCheck`), which are those of the dependency field (`DpkgParse`, `DpkgSplit`).
  `DpkgRun.Run` puts all of it together, the whole decision of `dpkg -i`: from zeroed tables it reads the status file
  and the control files of the packages given, interns names, splits fields, stores packages and status lines, adds
  virtual packages, looks for conflicts and runs the pass; the outcome is that of a database without tables, indices
  or edges (`DpkgVerdict.Outcome`). About this database, `DpkgVerdict` says exactly which conflicts are missed.
- **MD5.** `Md5.HashPieces` gives the digest of RFC 1321 however a message is split; `Md5Js.MD5` hashes the same
  blocks exactly for messages shorter than 2^32 bytes (`Md5Js.SameBlocks`).
- **expr.** `Expr.Evaluator.EvalLevel` agrees with evaluating the precedence tree of its tokens, including failures;
  a tree printed with no more parentheses than needed reads back as itself (`Expr.PrintReads`); `ExprLaws` says of the
  whole program what every operator and keyword gives;
  `Expr.ParseFirstAgrees` says exactly when evaluating while parsing reports another error than parsing first.

## Model

| member | source | states |
|---|---|---|
| GzipWindow.ThirdByte | apps/busybox-1.21.0/archival/gzip.c:626-653 | strings with equal hash keys and equal first two bytes have an equal third byte, so it need not be compared |
| GzipWindow.InsertKeeps | apps/busybox-1.21.0/archival/gzip.c:1718-1723 | inserting a string keeps all chains complete: the head of a key is the last string with it, every link is the string before with the same key |
| GzipWindow.LastSkips | apps/busybox-1.21.0/archival/gzip.c:1718-1723 | between a string and the one that its chain goes to next there is no string with the same key |
| GzipWindow.SlideKeeps | apps/busybox-1.21.0/archival/gzip.c:561-582 | sliding the window by WSIZE keeps all chains complete for the strings that are still there |
| GzipMatcher.Matcher.InsertString | apps/busybox-1.21.0/archival/gzip.c:1718-1723 | INSERT_STRING: window, hash and chains stay consistent and the returned head is the last string before with the same hash key |
| GzipMatcher.VisitsDown | apps/busybox-1.21.0/archival/gzip.c:606-679 | the strings that a search visits are strictly decreasing, above the limit, of one hash key, and no more than the chain length |
| GzipMatcher.VisitsAll | apps/busybox-1.21.0/archival/gzip.c:606-679 | and none is left out: a string above the limit with the same key is visited, unless as many later ones are as the chain length allows |
| GzipMatcher.Matcher.FileRead | apps/busybox-1.21.0/archival/gzip.c:430-443 | file_read: a prefix of the rest of the file, of any length the device chooses, lands in the window |
| GzipMatcher.Matcher.FillWindow | apps/busybox-1.21.0/archival/gzip.c:541-589 | fill_window: stream positions of strstart, match_start and block_start do not change, chains survive, something was read or the end is marked; the window slides iff strstart has reached WSIZE + MAX_DIST |
| GzipMatcher.Matcher.Compare | apps/busybox-1.21.0/archival/gzip.c:643-655 | the unrolled comparison: the exact length of the common string, at most MAX_MATCH; it reads behind the window iff the strings agree up to the end of the window and that is at most MAX_MATCH bytes away |
| GzipMatcher.ZerosReadBehind | apps/busybox-1.21.0/archival/gzip.c:541-655 | an input on which it does: 65534 zeros, whose end is reached without a slide |
| GzipMatcher.Matcher.Candidate | apps/busybox-1.21.0/archival/gzip.c:633-667 | one candidate: never longer than reported, and if it beats the best length it really matches; the skipped tests lose nothing |
| GzipMatcher.Matcher.LongestMatch | apps/busybox-1.21.0/archival/gzip.c:605-679 | longest_match: no string that the bounded walk visits matches longer than the result; if the result is above prev_length, match_start is the first string visited that matches so long |
| GzipMatcher.Matcher.LmInit | apps/busybox-1.21.0/archival/gzip.c:1847-1883 | lm_init: the window holds the start of the file, the table is empty, the hash has seen two bytes |
| BitString.BitsOfReverse | apps/busybox-1.21.0/archival/gzip.c:478-488 | sending a reversed code low bit first sends the code high bit first |
| GzipBits.Spill | apps/busybox-1.21.0/archival/gzip.c:460-465 | when the new bits do not fit, the word that leaves and the rest that stays together hold all bits in order |
| GzipBits.BitWriter.FlushOutbuf | apps/busybox-1.21.0/archival/gzip.c:377-384 | flush_outbuf: all bytes so far are kept in order |
| GzipBits.BitWriter.Put8 | apps/busybox-1.21.0/archival/gzip.c:390-394 | put_8bit: one byte is appended, the buffer is never full afterwards |
| GzipBits.BitWriter.Put16 | apps/busybox-1.21.0/archival/gzip.c:397-406 | put_16bit: two bytes, low byte first, over the end of the buffer or not |
| GzipBits.BitWriter.SendBits | apps/busybox-1.21.0/archival/gzip.c:450-470 | send_bits: exactly the given bits are appended to all bits sent so far |
| GzipBits.BitWriter.Windup | apps/busybox-1.21.0/archival/gzip.c:494-506 | bi_windup: fewer than eight zero bits fill the last byte |
| Canonical.CodeFits | apps/busybox-1.21.0/archival/gzip.c:1165-1198 | every canonical code fits its length |
| Canonical.PrefixFree | apps/busybox-1.21.0/archival/gzip.c:1165-1198 | no codeword is a prefix of another one |
| Canonical.DecodeSent | apps/busybox-1.21.0/archival/gzip.c:1165-1198 | a decoder reads back the symbol whose codeword was sent |
| Canonical.EveryStringDecodes | apps/busybox-1.21.0/archival/gzip.c:1165-1198 | with Kraft equality every bit string starts with a codeword |
| GzipCodes.BiReverse | apps/busybox-1.21.0/archival/gzip.c:478-488 | bi_reverse: the low bits in reverse order |
| GzipCodes.FirstCodes | apps/busybox-1.21.0/archival/gzip.c:1175-1177 | the first code of each length is that of section 3.2.2 of RFC 1951, without 16-bit overflow |
| GzipCodes.GenCodes | apps/busybox-1.21.0/archival/gzip.c:1165-1198 | gen_codes: every symbol with a length gets its reversed canonical code, nothing else changes |
| GzipHeap.RootIsLeast | apps/busybox-1.21.0/archival/gzip.c:1034-1056 | the root of a heap is least |
| GzipHeap.PqDownHeap | apps/busybox-1.21.0/archival/gzip.c:1034-1056 | pqdownheap: from a heap below k to a heap from k on, a permutation of the same nodes |
| GzipMerge.PqRemove | apps/busybox-1.21.0/archival/gzip.c:1216-1221 | PQREMOVE: the least node is taken out, the rest is a heap of the other nodes |
| GzipMerge.TakeTwo | apps/busybox-1.21.0/archival/gzip.c:1275-1279 | the two least frequent nodes go to the front of the list at the end of the same array |
| GzipMerge.Adopt | apps/busybox-1.21.0/archival/gzip.c:1281-1293 | the new node has the sum of both frequencies, is the father of both, and is in the heap |
| GzipForest.MergeKeeps | apps/busybox-1.21.0/archival/gzip.c:1274-1295 | a round keeps the list sorted by frequency, fathers before sons, every node in exactly one of heap and list |
| GzipForest.Heapify | apps/busybox-1.21.0/archival/gzip.c:1268-1269 | sub-heaps of increasing size make a heap of the same nodes |
| GzipForest.Combine | apps/busybox-1.21.0/archival/gzip.c:1274-1297 | the loop ends with one list of all nodes: the root first, sorted, every father before its sons; heap and list never overlap |
| GzipWeights.RoundMerges | apps/busybox-1.21.0/archival/gzip.c:1274-1295 | a round is one step of merging the two least weights |
| Huffman.LowerBound | apps/busybox-1.21.0/archival/gzip.c:1199-1207 | no prefix code for given weights costs less than merging the two least weights again and again |
| GzipSlots.LeafBalance | apps/busybox-1.21.0/archival/gzip.c:1092-1106 | a leaf that takes a place keeps the balance of Kraft sum, open places and overflow |
| GzipSlots.InnerBalance | apps/busybox-1.21.0/archival/gzip.c:1092-1103 | an inner node that takes a place opens two places one level down and keeps the balance |
| GzipPass.PassEnd | apps/busybox-1.21.0/archival/gzip.c:1092-1116 | behind the first pass the Kraft sum exceeds one by exactly overflow / 2 units of 2^-max_length |
| GzipBitlen.FirstPass | apps/busybox-1.21.0/archival/gzip.c:1084-1114 | lengths are at most max_length, bl_count counts them, opt_len and static_len are the exact costs |
| GzipRepair.ShorterExists | apps/busybox-1.21.0/archival/gzip.c:1121-1125 | while there is overflow, a leaf shorter than max_length exists |
| GzipRepair.RoundRepairs | apps/busybox-1.21.0/archival/gzip.c:1126-1132 | a round removes one unit from the Kraft sum and keeps the number of leaves |
| GzipRepair.Repair | apps/busybox-1.21.0/archival/gzip.c:1122-1133 | the repair ends with Kraft equality and the same number of leaves |
| GzipReassign.Reassign | apps/busybox-1.21.0/archival/gzip.c:1140-1153 | the lengths handed out match bl_count, and opt_len is the exact cost of the new lengths |
| GzipTree.EndRepair | apps/busybox-1.21.0/archival/gzip.c:1119-1153 | after the repair the lengths satisfy Kraft equality and bl_count counts them |
| GzipTree.GenBitlen | apps/busybox-1.21.0/archival/gzip.c:1069-1154 | gen_bitlen: Kraft equality, exactly the used symbols have lengths up to max_length, exact costs; overflow is zero iff the depths of the tree, which are those of an optimal code, all fit max_length, and then they are the lengths |
| GzipOptimal.TreeCost | apps/busybox-1.21.0/archival/gzip.c:1087-1114 | lengths that were not clamped cost what the inner nodes weigh |
| GzipOptimal.CutEnd | apps/busybox-1.21.0/archival/gzip.c:1092-1116 | the lengths of the first pass are the depths of the tree cut at max_length; overflow is zero iff no depth exceeds it, and then lengths and depths agree |
| GzipOptimal.TreeIsOptimal | apps/busybox-1.21.0/archival/gzip.c:1199-1207 | without overflow the lengths are those of an optimal prefix code |
| GzipLeaves.CollectLeaves | apps/busybox-1.21.0/archival/gzip.c:1236-1246 | the heap holds exactly the used symbols, max_code is the last of them, unused symbols have length zero |
| GzipLeaves.ForceTwo | apps/busybox-1.21.0/archival/gzip.c:1253-1262 | at least two symbols have a frequency; the accounts are lowered by what the forced ones will cost |
| GzipTree.TwoCodes | apps/busybox-1.21.0/archival/gzip.c:1248-1262 | a complete code of two symbols has one bit for each |
| GzipTree.ForcedAccounts | apps/busybox-1.21.0/archival/gzip.c:1253-1262 | with the forced codes subtracted the accounts are those of the symbols that really occur |
| GzipTree.BuildTree | apps/busybox-1.21.0/archival/gzip.c:1223-1306 | build_tree: a complete canonical code for all symbols that occur, and its exact dynamic and static cost; if two symbols occur the tree is that of an optimal code, and the code built is optimal itself whenever overflow is zero, that is when no depth exceeds the limit |
| GzipTables.LengthTables | apps/busybox-1.21.0/archival/gzip.c:1906-1919 | length_code and base_length are the tables of section 3.2.5 of RFC 1951, with code 285 for length 258 |
| GzipTables.DistTables | apps/busybox-1.21.0/archival/gzip.c:1921-1936 | D_CODE is the distance code for all distances up to 32768, base_dist its base |
| GzipTables.FixedFeasible | apps/busybox-1.21.0/archival/gzip.c:1944-1965 | the static literal code is complete, the static distance code is prefix-free |
| GzipTables.StaticLiterals | apps/busybox-1.21.0/archival/gzip.c:1944-1965 | the static literal tree: lengths and reversed codes of section 3.2.6 of RFC 1951 |
| GzipTables.StaticDistances | apps/busybox-1.21.0/archival/gzip.c:1968-1971 | the static distance tree |
| TreeCode.SymbolsExpand | apps/busybox-1.21.0/archival/gzip.c:1368-1419 | the run-length symbols of any lengths expand, as in section 3.2.7 of RFC 1951, to exactly these lengths |
| TreeCode.RunsGood | apps/busybox-1.21.0/archival/gzip.c:1382-1403 | every repeat count fits its field |
| TreeCode.LengthsRead | apps/busybox-1.21.0/archival/gzip.c:1368-1419 | a decoder reads back the lengths from the bits of the symbols |
| GzipTreeCode.ScanTree | apps/busybox-1.21.0/archival/gzip.c:1315-1361 | scan_tree: each symbol is counted as often as it occurs in the run-length symbols that send_tree sends |
| GzipTreeCode.SendTree | apps/busybox-1.21.0/archival/gzip.c:1368-1419 | send_tree: the bits of exactly these run-length symbols are sent |
| GzipHeader.OrderUndone | apps/busybox-1.21.0/archival/gzip.c:1440-1447 | lengths sent in bl_order, zeros at the end left out, are put back in place by the decoder |
| GzipHeader.OrderOutward | apps/busybox-1.21.0/archival/gzip.c:795-797 | bl_order: the repetitions, zero, then the lengths from eight outward in both directions |
| GzipHeader.BuildBlTree | apps/busybox-1.21.0/archival/gzip.c:1426-1453 | build_bl_tree: a code for all run-length symbols of both trees, and the exact size of the header |
| GzipHeader.SendAllTrees | apps/busybox-1.21.0/archival/gzip.c:1461-1483 | send_all_trees: the bits of the header |
| GzipHeader.TreesRead | apps/busybox-1.21.0/archival/gzip.c:1461-1483 | a decoder reads back both codes from the header |
| TokenCode.TokensRead | apps/busybox-1.21.0/archival/gzip.c:1546-1589 | a decoder following section 3.2.5 of RFC 1951 reads back exactly the tokens and stops at END_BLOCK |
| GzipTally.PackStep | apps/busybox-1.21.0/archival/gzip.c:1508-1517 | flags are packed into bytes, low bit first |
| GzipTally.NextFlag | apps/busybox-1.21.0/archival/gzip.c:1557-1586 | the flags come out of the bytes as they went in |
| GzipTally.DistAt | apps/busybox-1.21.0/archival/gzip.c:1573-1575 | the distances come out of d_buf in the order of the matches |
| GzipTally.BlockCost | apps/busybox-1.21.0/archival/gzip.c:1110-1113 | frequencies times lengths and extra bits are the bits of all tokens and END_BLOCK |
| GzipTally.GuessIs | apps/busybox-1.21.0/archival/gzip.c:1520-1527 | the estimate made from the frequencies is eight bits for each token, and five and the extra bits for each distance |
| GzipTally.GuessNear | apps/busybox-1.21.0/archival/gzip.c:1518-1533 | it is at most one bit too high and five bits too low for each token in the static code |
| GzipTally.StaticBound | apps/busybox-1.21.0/archival/gzip.c:1643-1655 | statically coded, a token takes at most 32 bits, so a stored block that is smaller has at most 65535 bytes |
| GzipCompress.SendMatch | apps/busybox-1.21.0/archival/gzip.c:1564-1584 | length code, extra bits, distance code, extra bits of a match |
| GzipCompress.CompressBlock | apps/busybox-1.21.0/archival/gzip.c:1546-1589 | compress_block: the bits of exactly the buffered tokens and of END_BLOCK |
| BlockCode.AppendBlock | apps/busybox-1.21.0/archival/gzip.c:1597-1668 | blocks compose: a stream of whole blocks followed by one more |
| BlockCode.LastBlock | apps/busybox-1.21.0/archival/gzip.c:1671-1674 | the last block ends the stream whatever bits fill the last byte |
| BlockCode.StaticReads | apps/busybox-1.21.0/archival/gzip.c:1657-1660 | a static block decodes to what its tokens stand for |
| BlockCode.DynamicReads | apps/busybox-1.21.0/archival/gzip.c:1661-1666 | a dynamic block, trees included, decodes to what its tokens stand for |
| BlockCode.StoredReads | apps/busybox-1.21.0/archival/gzip.c:1643-1655 | a stored block decodes to its bytes at any bit position |
| GzipPlan.Sizes | apps/busybox-1.21.0/archival/gzip.c:1605-1612 | opt_len and static_len are the sizes of the tokens in both encodings |
| GzipPlan.BuildTrees | apps/busybox-1.21.0/archival/gzip.c:1605-1621 | the three trees of a block: 3 + opt_len is the size of the dynamic block, 3 + static_len that of the static one; both codes are optimal unless their trees are deeper than 15 |
| GzipSizes.PlanFits | apps/busybox-1.21.0/archival/gzip.c:957-958 | opt_len and static_len of a block stay below 2^19 bits, so their 32-bit counters do not wrap |
| GzipSizes.DataBound | apps/busybox-1.21.0/archival/gzip.c:1597-1600 | a block that fits the buffers stands for at most 258 bytes for each token |
| GzipSend.CopyBlock | apps/busybox-1.21.0/archival/gzip.c:513-531 | copy_block: alignment, length, its complement, the bytes |
| GzipSend.SendDynamic | apps/busybox-1.21.0/archival/gzip.c:1661-1666 | what is sent is the dynamic block of the trees, of 3 + opt_len bits, and decodes to what the tokens stand for |
| GzipChoice.Choice | apps/busybox-1.21.0/archival/gzip.c:1620-1667 | the comparisons of flush_block decide: stored iff the bytes are in the window and four more than their number is no more than either size in bytes, else static iff it is no longer than dynamic |
| GzipChoice.NeverLonger | apps/busybox-1.21.0/archival/gzip.c:1620-1667 | no block is longer in bytes than either Huffman encoding, but for at most ten bits in front of a stored one |
| GzipBlock.Coder.InitBlock | apps/busybox-1.21.0/archival/gzip.c:1001-1019 | init_block: no tokens, only END_BLOCK counted |
| GzipBlock.Coder.Tally | apps/busybox-1.21.0/archival/gzip.c:1490-1541 | ct_tally: one more token in the buffers and in the counts; a flush is asked for iff a buffer is full, or at a multiple of 4096 tokens few of which are matches the estimate is below half of the input |
| GzipBlock.Coder.SendBlock | apps/busybox-1.21.0/archival/gzip.c:1619-1667 | exactly the encoding chosen by the three sizes is sent; it decodes to the data, and compressed_len is the number of bits sent modulo 2^32, each update wrapping around as an unsigned of 32 bits; stored_len is below 2^22 |
| GzipBlock.Coder.FlushBlock | apps/busybox-1.21.0/archival/gzip.c:1597-1679 | flush_block: one more block, with the encoding that its sizes call for and the best codes, that decodes to the data; at the end of the file the returned length is the number of bytes written modulo 2^29, the number itself iff fewer than 2^29 bytes were written; stored_len is at most 258 for each token, below 2^22 |
| GzipDeflate.MatchStep | apps/busybox-1.21.0/archival/gzip.c:1769-1771 | a match token extends the expansion to the end of the match |
| GzipDeflate.WindowRepeats | apps/busybox-1.21.0/archival/gzip.c:1753-1756 | a match clamped to the lookahead is a repetition in the input, whatever follows the lookahead |
| GzipDeflate.Search | apps/busybox-1.21.0/archival/gzip.c:1744-1765 | the search of a round: the best match over the strings visited, cut to the lookahead, not counting three bytes farther than TOO_FAR; two if there is no head, the head is too far away or the match before is of full length |
| GzipLazy.SearchIs | apps/busybox-1.21.0/archival/gzip.c:1746-1765 | a search in the window, cut to the lookahead, finds what a search in the input itself finds: strings, keys and lengths do not depend on what lies behind the bytes known |
| GzipLazy.NoSearchIs | apps/busybox-1.21.0/archival/gzip.c:1746-1751 | where the source does not search, no search of the input is due |
| GzipLazy.NoneCounts | apps/busybox-1.21.0/archival/gzip.c:1744-1765 | a search without a result: no string visited agrees on three bytes, or on no more than three of which the match is too far away |
| GzipLazy.WhyLiteral | apps/busybox-1.21.0/archival/gzip.c:1766-1805 | of all tokens: a literal stands only where the search found no match that counts or where the search one byte further found a longer one |
| GzipLazy.WhyMatch | apps/busybox-1.21.0/archival/gzip.c:1766-1793 | of all tokens: a match is what the search for its string found, and the search one byte further found nothing longer |
| GzipLazy.WhyLast | apps/busybox-1.21.0/archival/gzip.c:1824-1826 | the literal behind the loop stands where fewer than three bytes are left |
| GzipDeflate.SkipMatch | apps/busybox-1.21.0/archival/gzip.c:1773-1789 | all strings inside the match are inserted and strstart is behind it |
| GzipDeflate.TakeMatch | apps/busybox-1.21.0/archival/gzip.c:1769-1793 | the previous match is tallied with its length and distance; the tokens stand for the input up to strstart, and the block ends iff ct_tally asks for it |
| GzipDeflate.EmitLiteral | apps/busybox-1.21.0/archival/gzip.c:1794-1805 | the byte before strstart is tallied; the tokens stand for the input up to strstart, and the block ends iff ct_tally asks for it |
| GzipDeflate.TallyFlushes | apps/busybox-1.21.0/archival/gzip.c:1490-1541 | whether a block ends behind a token depends on the tokens of the block alone |
| GzipDeflate.Step | apps/busybox-1.21.0/archival/gzip.c:1735-1813 | one round: a match is appended iff the one before has three bytes or more and the new one is not longer, else a literal iff one is pending; tokens and blocks stand for the input up to strstart, less a pending literal |
| GzipDeflate.Round | apps/busybox-1.21.0/archival/gzip.c:1735-1822 | a round and the refill: the tokens so far are those that follow from the searches so far, each made with MIN_LOOKAHEAD bytes or all that is left |
| GzipDeflate.Deflate | apps/busybox-1.21.0/archival/gzip.c:1725-1828 | deflate: what was written decodes to everything that was read; its bits are those of the blocks, the tokens of all blocks are those of lazy matching over the whole input, and blocks end exactly where they have to; the returned length is the number of bytes written iff that is below 2^29, else its remainder |
| GzipDeflate.Zip | apps/busybox-1.21.0/archival/gzip.c:1983-2010 | the compressed data of a file decodes to the file, if no read fails, and consists of the blocks of lazy matching, each with the encoding that its sizes call for |
| Lzo1xRewrite.WidenShortRun | apps/busybox-1.21.0/archival/lzop.c:184-192 | o_m1_a and o_m3_a: a match between matches becomes literals of the short run before it |
| Lzo1xRewrite.MakeLongRun | apps/busybox-1.21.0/archival/lzop.c:194-217 | o_m1_b and o_m3_b: short run, match and following run become one long literal run |
| Lzo1xRewrite.JoinRuns | apps/busybox-1.21.0/archival/lzop.c:238-253 | o_m2: a match between two long runs joins them |
| Lzo1xInvariant.PlainKeeps | apps/busybox-1.21.0/archival/lzop.c:320-334 | a match left as it is keeps the invariant |
| Lzo1xInvariant.WidenKeeps | apps/busybox-1.21.0/archival/lzop.c:287-295 | widening a short run keeps the meaning of the whole buffer |
| Lzo1xInvariant.LongRunKeeps | apps/busybox-1.21.0/archival/lzop.c:296-318 | making a long run keeps the meaning of the whole buffer |
| Lzo1xInvariant.JoinKeeps | apps/busybox-1.21.0/archival/lzop.c:238-253 | joining two runs keeps the meaning of the whole buffer |
| Lzo1xPeephole.InstructionsForm | apps/busybox-1.21.0/archival/lzop.c:103-354 | the instructions of a stream, written one after the other, are the stream |
| Lzo1xTrace.RuleIs | apps/busybox-1.21.0/archival/lzop.c:184-318 | what the optimizer looks at (litp, lit, the literal count, the next opcode) decides as the rule on the instructions around the match does |
| Lzo1xTrace.PlainTracks | apps/busybox-1.21.0/archival/lzop.c:320-334 | a match that the rules keep |
| Lzo1xTrace.WidenTracks | apps/busybox-1.21.0/archival/lzop.c:184-192 | o_m1_a and o_m3_a: the bytes are those of the instruction before with three literals, the last of which the match stood for |
| Lzo1xTrace.NewRunTracks | apps/busybox-1.21.0/archival/lzop.c:194-217 | o_m1_b and o_m3_b: the bytes are those of the instruction before without its literals and of one run of all literals |
| Lzo1xTrace.JoinTracks | apps/busybox-1.21.0/archival/lzop.c:238-253 | o_m2: the bytes are those of one run with the literals of both and those that the match stood for |
| Lzo1xTrace.MarkerTracks | apps/busybox-1.21.0/archival/lzop.c:336-354 | behind the end marker the whole buffer is the byte form of the rewritten list |
| Lzo1xTrace.RunsJoined | apps/busybox-1.21.0/archival/lzop.c:238-253 | for all literals: two runs around a match of three bytes become one run iff the new count fits into four bits, else the stream stays as it is |
| Lzo1xOptimizer.Optimizer.CopyInto | apps/busybox-1.21.0/archival/lzop.c:72-95 | copy2 and copy3 write the bytes that the match stands for, also when it overlaps itself |
| Lzo1xOptimizer.Optimizer.M1 | apps/busybox-1.21.0/archival/lzop.c:173-220 | an M1 match: rewritten exactly by the rule for it, and the buffer still means the same |
| Lzo1xOptimizer.Optimizer.M2 | apps/busybox-1.21.0/archival/lzop.c:223-253 | an M2 match: joined with the runs around it exactly by the rule, and the buffer still means the same |
| Lzo1xOptimizer.Optimizer.M3M4 | apps/busybox-1.21.0/archival/lzop.c:254-324 | an M3 or M4 match: rewritten exactly by the rule; at the end marker the buffer is the byte form of the rewritten instructions |
| Lzo1xOptimizer.Optimizer.LiteralRun | apps/busybox-1.21.0/archival/lzop.c:133-152 | a literal run: copied out, and kept as it is |
| Lzo1xOptimizer.Optimizer.FarM1 | apps/busybox-1.21.0/archival/lzop.c:154-169 | the match directly behind a literal run is kept as it is |
| Lzo1xOptimizer.Optimize | apps/busybox-1.21.0/archival/lzop.c:103-354 | for every valid stream: OK, the decoded bytes in out; the stream left behind, of the same length, decodes to the same bytes and is the byte form of the old instructions rewritten by the rules |
| Adler32.NoOverflow | apps/busybox-1.21.0/archival/lzop.c:470-491 | 5552 bytes never overflow 32 bits, even from sums that are not reduced |
| Adler32.LargestPrime | apps/busybox-1.21.0/archival/lzop.c:469 | LZO_BASE is the largest prime below 65536 |
| Adler32.SumsWeighted | apps/busybox-1.21.0/archival/lzop.c:470-491 | the sums are the sum of all bytes and the sum with weights, reduced once |
| Adler32.LzoAdler32 | apps/busybox-1.21.0/archival/lzop.c:465-492 | lzo_adler32 is the per-byte sum of section 8.2 of RFC 1950; no bytes change nothing, a null pointer gives 1 |
| Adler32.Pieces | apps/busybox-1.21.0/archival/lzop.c:510-517 | a checksum continued over a second buffer is that of the concatenation |
| DpkgVersion.OrderInjective | apps/busybox-1.21.0/archival/dpkg.c:217-225 | order() tells all non-digit characters apart and from the end of a text (which comes first, DpkgPolicy says) |
| DpkgVersion.LexIsPolicy | apps/busybox-1.21.0/archival/dpkg.c:228-265 | comparing alternating texts and numbers is a lexicographic order on keys |
| DpkgVersion.LexAntisymmetric | apps/busybox-1.21.0/archival/dpkg.c:228-265 | antisymmetry |
| DpkgVersion.LexTransitive | apps/busybox-1.21.0/archival/dpkg.c:228-265 | transitivity, strict if one step is |
| DpkgCompare.MoreDigits | apps/busybox-1.21.0/archival/dpkg.c:245-261 | without leading zeros the longer number is the larger one |
| DpkgCompare.CompareNumbers | apps/busybox-1.21.0/archival/dpkg.c:245-263 | skipping zeros and comparing digits side by side compares the numbers |
| DpkgCompare.VersionComparePart | apps/busybox-1.21.0/archival/dpkg.c:228-265 | the sign of the result is the order of the policy; no pointer passes a terminator |
| DpkgCompare.EqualVersions | apps/busybox-1.21.0/archival/dpkg.c:228-265 | zero exactly when texts and numbers agree: up to leading zeros and a zero at the end |
| DpkgCompare.VersionCompare | apps/busybox-1.21.0/archival/dpkg.c:271-322 | epoch, then upstream version, then revision |
| DpkgCompare.VersionsAntisymmetric | apps/busybox-1.21.0/archival/dpkg.c:271-322 | the order of versions is antisymmetric and total |
| DpkgCompare.VersionsTransitive | apps/busybox-1.21.0/archival/dpkg.c:271-322 | the order of versions is transitive, strictly if one step is strict |
| DpkgCompare.TestVersion | apps/busybox-1.21.0/archival/dpkg.c:324-342 | each operator in terms of the order |
| DpkgPolicy.CommonFront | apps/busybox-1.21.0/archival/dpkg.c:228-265 | what two versions have in common in front of a text or behind one does not matter |
| DpkgPolicy.TildeFirst | apps/busybox-1.21.0/archival/dpkg.c:217-243 | a tilde sorts before everything, even before the end: a~x is before a |
| DpkgPolicy.EndFirst | apps/busybox-1.21.0/archival/dpkg.c:217-243 | every other character that is no digit sorts behind the end |
| DpkgPolicy.CharactersDecide | apps/busybox-1.21.0/archival/dpkg.c:217-243 | where two characters that are no digits differ, the tilde comes first, then letters by their codes, then all others by their codes |
| DpkgPolicy.NumberIsEnd | apps/busybox-1.21.0/archival/dpkg.c:217-243 | a number at the place of a character sorts like the end of the text |
| DpkgPolicy.NumbersDecide | apps/busybox-1.21.0/archival/dpkg.c:245-263 | numbers at the same place are compared as numbers; if they are equal, what follows them decides |
| DpkgPolicy.EpochDecides | apps/busybox-1.21.0/archival/dpkg.c:282-298 | a larger epoch is later, whatever follows; no epoch is epoch zero |
| DpkgPolicy.UpstreamDecides | apps/busybox-1.21.0/archival/dpkg.c:300-317 | without epochs the upstream versions decide, and the revisions behind the last dash if those are equal |
| DpkgPolicy.CandidateFirst | apps/busybox-1.21.0/archival/dpkg.c:217-322 | a whole version with a tilde and more behind it is earlier |
| DpkgPolicy.Operators | apps/busybox-1.21.0/archival/dpkg.c:324-342 | exactly one of earlier, equal and later holds, the other operators follow from these, and earlier is the converse of later |
| Probing.TableSizesArePrime | apps/busybox-1.21.0/archival/dpkg.c:76-104 | the three table sizes are primes |
| Probing.WalkDistinct | apps/busybox-1.21.0/archival/dpkg.c:187-190 | fewer than a prime number of steps apart, two probes are different |
| Probing.EverySlot | apps/busybox-1.21.0/archival/dpkg.c:187-190 | the decrement walk visits every slot |
| DpkgTables.MakeHash | apps/busybox-1.21.0/archival/dpkg.c:157-174 | make_hash: start and decrement in range, for every key |
| DpkgTables.SearchName | apps/busybox-1.21.0/archival/dpkg.c:177-194 | ends while a slot is free; the key is at the returned index, nothing else changed, every name stays where a search finds it |
| DpkgTables.AmongFree | apps/busybox-1.21.0/archival/dpkg.c:177-194 | as long as there are fewer than 16381 different names a slot is free |
| DpkgTables.SearchNames | apps/busybox-1.21.0/archival/dpkg.c:177-194 | over any run of searches for fewer than 16381 different names, two get the same index iff they are equal |
| DpkgDeps.SearchPackage | apps/busybox-1.21.0/archival/dpkg.c:344-365 | ends; a free slot iff no stored package of that name satisfies the operator, else one that does |
| DpkgDeps.StorePackage | apps/busybox-1.21.0/archival/dpkg.c:673-676 | a package stored where the search ended leaves all packages and status entries where searches find them |
| DpkgDeps.SearchStatus | apps/busybox-1.21.0/archival/dpkg.c:199-215 | ends; the entry of the name, or a free slot iff there is none |
| DpkgDeps.StoreStatus | apps/busybox-1.21.0/archival/dpkg.c:776-778 | the same for a status entry; a name keeps at most one |
| DpkgCheck.GetStatus | apps/busybox-1.21.0/archival/dpkg.c:680-700 | word number num of a status line; what that is say DpkgCheck.WordReads and DpkgCheck.WordPlain |
| DpkgCheck.WordReads | apps/busybox-1.21.0/archival/dpkg.c:680-700 | of any line made of words and spaces, word number n is the n-th one |
| DpkgCheck.WordPlain | apps/busybox-1.21.0/archival/dpkg.c:680-700 | a word never holds a space or a newline |
| DpkgCheck.PackageSatisfies | apps/busybox-1.21.0/archival/dpkg.c:951-966 | depends only on the status of the package's name: installed for a pre-dependency, wanted for a dependency |
| DpkgCheck.SearchForProvides | apps/busybox-1.21.0/archival/dpkg.c:383-396 | the first provider behind the start, or none |
| DpkgCheck.CheckEdge | apps/busybox-1.21.0/archival/dpkg.c:1101-1135 | satisfied directly or by some provider |
| DpkgCheck.CurrentDecides | apps/busybox-1.21.0/archival/dpkg.c:1101-1120 | any stored version can meet a relation, with the status of the name: all relations are decided by the package that the status entry points to iff no other version of the name is stored |
| DpkgCheck.OldVersionCounts | apps/busybox-1.21.0/archival/dpkg.c:1101-1120 | the failing input: the entry points to version 2, version 1 is stored too, and "not later than 1" is met |
| DpkgCheck.Alternatives | apps/busybox-1.21.0/archival/dpkg.c:1084-1164 | the pass over alternatives needs one of them and goes on behind the last one |
| DpkgCheck.PassDecides | apps/busybox-1.21.0/archival/dpkg.c:1084-1164 | the pass over flat edges holds iff every group has a satisfied alternative |
| DpkgCheck.CheckEdges | apps/busybox-1.21.0/archival/dpkg.c:1084-1164 | the loop with number_of_alternatives and index skipping decides all groups of a package |
| DpkgCheck.CheckDependencies | apps/busybox-1.21.0/archival/dpkg.c:1053-1165 | passes iff every group of every package wanted for install is met |
| DpkgParse.LineReads | apps/busybox-1.21.0/archival/dpkg.c:417-507 | a dependency field in the usual form parses into the groups it was written from |
| DpkgSplit.AddAlternative | apps/busybox-1.21.0/archival/dpkg.c:448-498 | one alternative: name, operator and version, or the illegal operator |
| DpkgSplit.AddField | apps/busybox-1.21.0/archival/dpkg.c:432-501 | one comma group: an OR edge with the number of alternatives iff there is a bar, then the alternatives |
| DpkgSplit.AddSplitDependencies | apps/busybox-1.21.0/archival/dpkg.c:417-507 | the edges added are the flat form of the comma groups of the field; errors of the parser are kept |
| DpkgDatabase.LoadDistinct | apps/busybox-1.21.0/archival/dpkg.c:673-676 | over any run of records no two packages have the same name and versions that compare equal |
| DpkgHolding.ValidExtends | apps/busybox-1.21.0/archival/dpkg.c:177-194 | names added between two packages leave all three tables valid |
| DpkgHolding.ValidEmpty | apps/busybox-1.21.0/archival/dpkg.c:121-123 | the zeroed tables are valid |
| DpkgHolding.TakenBound | apps/busybox-1.21.0/archival/dpkg.c:673-676 | the table has as many packages as there are different ones |
| DpkgHolding.HoldPackage | apps/busybox-1.21.0/archival/dpkg.c:673-676 | the package stored takes the place of exactly the one with the same name and an equal version |
| DpkgHolding.HoldStatus | apps/busybox-1.21.0/archival/dpkg.c:776-778 | the status line stored is that of the package's name, all other names keep theirs |
| DpkgMeaning.OffersMeans | apps/busybox-1.21.0/archival/dpkg.c:383-396 | a node is a provider of an index iff a Provides field of its package names the string |
| DpkgMeaning.SatisfiedMeans | apps/busybox-1.21.0/archival/dpkg.c:1101-1135 | an edge is satisfied iff its alternative holds in the database |
| DpkgMeaning.NeedsMean | apps/busybox-1.21.0/archival/dpkg.c:1084-1164 | the groups of a node are met iff every comma group of every dependency field of its package has an alternative that holds |
| DpkgMeaning.NodeSearchable | apps/busybox-1.21.0/archival/dpkg.c:1101 | every edge that the pass looks up has its name and its version in the name table |
| DpkgMeaning.CheckTables | apps/busybox-1.21.0/archival/dpkg.c:1053-1165 | the last loop of check_deps accepts the tables iff the database that they hold is consistent |
| DpkgConflicts.KindEdges | apps/busybox-1.21.0/archival/dpkg.c:417-507 | the edges of one kind are the relations of that kind in all control fields, in order |
| DpkgConflicts.HoldVirtual | apps/busybox-1.21.0/archival/dpkg.c:996-1001 | the node made for a provided name is a package without relations |
| DpkgConflicts.CheckGivenNode | apps/busybox-1.21.0/archival/dpkg.c:1013-1050 | the conflict loop for one package: fine, a conflict, or a null pointer, as the database says |
| DpkgVerdict.GivenWanted | apps/busybox-1.21.0/archival/dpkg.c:1811-1828 | whatever the status line was, the package is wanted afterwards |
| DpkgVerdict.StateKept | apps/busybox-1.21.0/archival/dpkg.c:702-727 | two calls of set_status keep the third word iff the line has a second word or no third one |
| DpkgVerdict.ConflictReported | apps/busybox-1.21.0/archival/dpkg.c:1027-1046 | if all names in conflict have a status, a conflict is reported iff the version of the given package itself stands in the relation to one that is there and wanted |
| DpkgVerdict.UnversionedReported | apps/busybox-1.21.0/archival/dpkg.c:1027-1046 | hence conflicts without a version are reported exactly |
| DpkgVerdict.ConflictMissed | apps/busybox-1.21.0/archival/dpkg.c:1035-1037 | the failing input: version 1 conflicts with a package from version 2 on, which is wanted |
| DpkgVerdict.ProvidesAndConflicts | apps/busybox-1.21.0/archival/dpkg.c:988-1046 | a package that provides a name and conflicts with it is never accepted while the name has no status: its own virtual package is found, whose status is a null pointer |
| DpkgVerdict.OneDependency | apps/busybox-1.21.0/archival/dpkg.c:754-1868 | a status file with one package and a package that depends on it: accepted iff the first word of the status is "install" and the version satisfies the relation, else unmet |
| DpkgVerdict.PresentCounts | apps/busybox-1.21.0/archival/dpkg.c:962-963 | in "install ok installed" the first word makes a package wanted, the third one installed |
| DpkgRun.AddEntry | apps/busybox-1.21.0/archival/dpkg.c:631-663 | one control field: the last name and version count, relations add up, errors of the parser are kept |
| DpkgRun.Tables.FillPackage | apps/busybox-1.21.0/archival/dpkg.c:606-677 | fill_package_struct: nothing without a version, else the package that the fields describe replaces the same one |
| DpkgRun.Tables.IndexRecord | apps/busybox-1.21.0/archival/dpkg.c:763-781 | one record of the status file: the tables hold the database with its package and its status line |
| DpkgRun.Tables.MarkInstall | apps/busybox-1.21.0/archival/dpkg.c:1811-1828 | the status line of a package that is given: new, or with its first two words set |
| DpkgRun.Tables.InstallFile | apps/busybox-1.21.0/archival/dpkg.c:1800-1828 | one control file: the tables hold the database with its package, and the slots of all packages given hold what is stored there now |
| DpkgRun.Tables.AddVirtualNodes | apps/busybox-1.21.0/archival/dpkg.c:990-1007 | the first loop of check_deps for one package: every name that it provides and that no package suits becomes one, nothing else moves |
| DpkgRun.Tables.CheckDeps | apps/busybox-1.21.0/archival/dpkg.c:968-1166 | check_deps decides as the database does |
| DpkgRun.Run | apps/busybox-1.21.0/archival/dpkg.c:754-1868 | from zeroed tables, for any status file and any packages given: accepted iff there is no conflict and every comma group of every Depends and Pre-Depends field of every wanted package has an alternative that holds; else the conflict, the unmet dependency or the error that comes first |
| Md5.Transform | www/cgi-src/md5.c:172-270 | Transform is the table-driven compression of section 3.4 of RFC 1321, all 64 constants, shifts and indices included |
| Md5Spec.WordOfBytes | www/cgi-src/md5.c:158-167 | the bytes stored for a word give the word back |
| Md5Spec.FTakes | www/cgi-src/md5.c:52 | F selects: y where x is set, z elsewhere |
| Md5Spec.GTakes | www/cgi-src/md5.c:53 | G selects: x where z is set, y elsewhere |
| Md5Spec.HSums | www/cgi-src/md5.c:54 | H is the sum without carry |
| Md5Spec.IInverts | www/cgi-src/md5.c:55 | I keeps y where x is clear and z is set and inverts it elsewhere |
| Md5Spec.DigestInjective | www/cgi-src/md5.c:158-167 | different chaining words have different digests |
| Md5.CountStep | www/cgi-src/md5.c:108-112 | i[1]:i[0] is eight times the number of bytes modulo 2^64 |
| Md5.Context.MD5Init | www/cgi-src/md5.c:83-94 | no bytes seen, initial chaining words |
| Md5.Context.MD5Update | www/cgi-src/md5.c:96-129 | all whole blocks are compressed, the rest is buffered, the count is right, for every length of the piece |
| Md5.Context.MD5Final | www/cgi-src/md5.c:131-168 | the digest of all bytes seen |
| Md5.HashPieces | www/cgi-src/md5.c:83-168 | for every way of splitting a message the digest is that of the padded message |
| Md5Js.AddUnsignedIsAdd | www/scripts/md5.js:14-33 | AddUnsigned is addition modulo 2^32 |
| Md5Js.ConvertToWordArray | www/scripts/md5.js:60-81 | the blocks are the padded bytes, the low and the high word of the length |
| Md5Js.Block | www/scripts/md5.js:132-201 | one round of the block loop is the compression of RFC 1321 |
| Md5Js.MD5 | www/scripts/md5.js:128-202 | the four chaining words over these blocks |
| Md5Js.SameBlocks | www/scripts/md5.js:60-81 | the blocks are those of RFC 1321 iff the length modulo 2^61 is below 2^32 |
| Md5Js.SameHash | www/scripts/md5.js:60-202 | for all lengths that a string can have the blocks are the same iff the length is below 2^32, and then so are the hashes |
| Md5Js.LengthLost | www/scripts/md5.js:78-79 | the failing input: for a message of 2^32 bytes the blocks differ |
| ExprValue.Truncated | apps/busybox-1.21.0/coreutils/expr.c:226-245 | quotient and remainder truncate toward zero |
| ExprValue.SubstrTakes | apps/busybox-1.21.0/coreutils/expr.c:359-376 | substr takes the characters asked for iff the count fits 32 bits or what is left of it covers the rest of the string |
| ExprValue.NumberReads | apps/busybox-1.21.0/coreutils/expr.c:156-182 | tostring and toarith undo each other on numbers |
| Expr.HolesFail | apps/busybox-1.21.0/coreutils/expr.c:296-316 | a tree with a hole has no value |
| Expr.Evaluator.EvalLevel | apps/busybox-1.21.0/coreutils/expr.c:385-516 | one level of binary operators: the value, the remaining tokens or the failure of the precedence tree (what the operators give, ExprLaws says) |
| Expr.Evaluator.EvalKeyword | apps/busybox-1.21.0/coreutils/expr.c:320-380 | quote, length, match, index and substr |
| Expr.Evaluator.EvalOperand | apps/busybox-1.21.0/coreutils/expr.c:296-316 | operands and parentheses |
| Expr.SyntaxErrors | apps/busybox-1.21.0/coreutils/expr.c:296-516 | a syntax error is reported iff there is a hole and every operand that is complete in front of it evaluates |
| Expr.ParseFirstAgrees | apps/busybox-1.21.0/coreutils/expr.c:187-538 | evaluating while parsing and parsing all tokens first have the same values; they report the same error iff the tokens are an expression, there are none, or every operand that is complete in front of the syntax error evaluates |
| Expr.FailuresDiffer | apps/busybox-1.21.0/coreutils/expr.c:427-447 | two inputs on which the errors differ: a missing operand and a token left over |
| Expr.PrintReads | apps/busybox-1.21.0/coreutils/expr.c:296-516 | a tree printed for a level, with parentheses only around looser operators and right operands of the same level, is what that level reads, whatever follows |
| Expr.ParenthesesNeeded | apps/busybox-1.21.0/coreutils/expr.c:385-516 | none of these parentheses can be left out: the level would stop in front of the operator |
| Expr.Grouping | apps/busybox-1.21.0/coreutils/expr.c:401-447 | a - b - c * d is (a - b) - (c * d) |
| Expr.EvaluatePrinted | apps/busybox-1.21.0/coreutils/expr.c:296-516 | a printed tree evaluates to its own value, using up all tokens |
| Expr.ExprMain | apps/busybox-1.21.0/coreutils/expr.c:519-538 | the value of all tokens, the failure met first, a syntax error if tokens are left behind a value, or too few arguments (what the operators give, ExprLaws says) |
| ExprLaws.NumbersCompare | apps/busybox-1.21.0/coreutils/expr.c:196-222 | of the whole program: each of the seven comparisons of two numbers of 64 bits gives 1 iff they stand in that relation |
| ExprLaws.NumbersAdd | apps/busybox-1.21.0/coreutils/expr.c:226-239 | of the whole program: sum, difference and product, as the number of 64 bits that is the result modulo 2^64 |
| ExprLaws.NumbersDivide | apps/busybox-1.21.0/coreutils/expr.c:240-245 | of the whole program: quotient toward zero and remainder with the sign of the dividend; division by zero fails |
| ExprLaws.NoArithmetic | apps/busybox-1.21.0/coreutils/expr.c:230-231 | arithmetic fails unless both operands are numbers |
| ExprLaws.StringsCompare | apps/busybox-1.21.0/coreutils/expr.c:196-222 | of the whole program: other operands are compared as in a dictionary, numbers among them in their plain form |
| ExprLaws.OrGives | apps/busybox-1.21.0/coreutils/expr.c:501-516 | the bar between two expressions: the first value unless it is empty or zero, else the second |
| ExprLaws.AndGives | apps/busybox-1.21.0/coreutils/expr.c:481-497 | the ampersand between two expressions: the first value, or zero if one of them is empty or zero |
| ExprLaws.OrAndTokens | apps/busybox-1.21.0/coreutils/expr.c:385-516 | of the whole program: both on operands, and the colon calls the pattern match on both strings |
| ExprLaws.LengthAndQuote | apps/busybox-1.21.0/coreutils/expr.c:333-343 | of the whole program: length, quote, and an operand alone |
| ExprLaws.IndexGives | apps/busybox-1.21.0/coreutils/expr.c:352-361 | of the whole program: index gives the least position of a character of the set, or zero |
| ExprLaws.SubstrGives | apps/busybox-1.21.0/coreutils/expr.c:362-378 | of the whole program: substr gives the characters from the position on, nothing outside of the string |
| ExprLaws.Precedence | apps/busybox-1.21.0/coreutils/expr.c:385-516 | the six levels, from the loosest to the tightest and the other way round |
| ExprLaws.LeftToRight | apps/busybox-1.21.0/coreutils/expr.c:385-516 | operators of the same level group to the left |
| ExprLaws.NumberForm | apps/busybox-1.21.0/coreutils/expr.c:166-182 | white space, a sign or none and digits are the number they denote, cut to 64 bits |
| ExprLaws.OnlyNumbers | apps/busybox-1.21.0/coreutils/expr.c:166-182 | and nothing else is a number |

## Left out

- The gzip header and trailer, CRC-32 and option parsing: input and output only.
- Configurations of gzip other than the default one (HASH_BITS 13, LIT_BUFSIZE and DIST_BUFSIZE 0x2000).
- Freeing and allocation, in all programs.
- get_header, file extraction, read_package_field and status-file writing of dpkg: files only.
- The other actions of dpkg_main (configure, remove, purge, list) and the option that ignores dependencies.
- The regular expressions of expr's `:` operator: a parameter of the evaluator.
- GzipMatcher.Matcher.FileRead: reading is a parameter, a function that says how much each call returns at most; a
  read error is an end of file, as in the source.
- GzipMatcher.Matcher.LongestMatch: the window has a guard of 259 bytes behind 2*WSIZE, since at the end of the file
  the comparison may look past the last byte read and, as GzipMatcher.Matcher.Compare says, past the window; the
  contents of the guard are arbitrary.
- GzipMatcher.Matcher.FillWindow: match_start is an unbounded integer; it may become negative where the source wraps
  around, and the distance computed from it is the same.
- GzipDeflate.SkipMatch: lookahead is lowered byte by byte along with strstart, not at once before the loop; it is not
  read in between.
- GzipCompress.CompressBlock: the buffers and trees are passed as values, since they are only read.
- GzipLazy.SearchIs: of several longest matches that reach the end of the bytes known, the one found may depend on what
  lies behind them in the window, as in the source, so only its length is stated there.
- GzipBlock.Coder.SendBlock: the branch for a file that is stored without header is not modelled, since seekable() is
  the constant 0.
- GzipTree.BuildTree: the overlay of Freq with Code and of Dad with Len is modelled by two arrays, `fc` and `dl`.
- GzipBits.BitWriter.SendBits: or-ing disjoint bits is addition.
- Lzo1xOptimizer.Optimize: streams that do not decode are not covered; on them the source reads and writes outside its
  buffers.
- Lzo1xOptimizer.Optimizer.FarM1: the store `lit = 0` before match_done is overwritten there and left out.
- DpkgCompare.VersionCompare: an epoch whose atoi overflows, which is undefined in C, counts modulo 2^32. The result is
  not always -1, 0 or 1 as the comment in the source says, so only its sign is stated.
- DpkgTables.MakeHash: characters are unsigned and unsigned long has 32 bits; with signed characters above 127 the
  shift count would be negative.
- DpkgTables.SearchName: a free slot is required; with a full table the source would search for ever. The callers of
  it require that there are fewer different names than slots.
- DpkgSplit.AddSplitDependencies: num_of_edges and the version of an OR edge have 16 bits in the source; the model does
  not wrap them, so it covers packages with fewer than 65536 edges.
- DpkgRun.Tables.FillPackage: a record without a Package field counts as a null pointer; in the source it takes the name
  in slot 0 if there is one. Control fields are given with their names recognized.
- DpkgRun.Tables.IndexRecord: a record without a Status field leaves the new status entry uninitialized; the line at the
  index that it happens to hold is a parameter.
- DpkgRun.Tables.MarkInstall: the source also makes a new entry if the status line has index 0; the model does so only if
  there is no entry.
- DpkgRun.Run: all names, and all packages and names with a status on the way, must be fewer than the slots of their
  table; with a full table the source would search for ever.
- DpkgCheck.PackageSatisfies: status words are compared as strings, not by their indices; by DpkgTables.SearchNames the
  indices are equal iff the strings are. The source adds these words to the name table; in the model they need no slot.
- DpkgSplit.AddAlternative: a version in parentheses without an operator leaves the operator of the new edge
  uninitialized; the model takes it from a parameter.
- ExprValue.Truncated: signed overflow, undefined in C, wraps around in the model, also for the least number divided
  by -1.
- Expr.Evaluator.EvalLevel: eval and eval1 to eval5 are one method with the level as parameter.
- Md5.Context.MD5Update: UINT4 has 32 bits, as its comment says; a piece has fewer than 2^32 bytes, the range of inLen.
- Md5Js.MD5: Utf8Encode and WordToHex are left out; the model starts from the bytes. `Array` refuses more than 2^32
  elements, that is messages from about 2^34 bytes on.
- ExprValue.SubstrTakes: xstrndup (libbb/xfuncs_printf.c) decrements a signed count; for strings shorter than 2^31 bytes
  that is the unsigned count of the model.
- GzipSizes.PlanFits: opt_len is lowered before it is raised (ForceTwo), so the source's unsigned counter may be below
  zero modulo 2^32 in between; the model uses integers there.
