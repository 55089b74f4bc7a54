# Partition-to-offset resolution and region placement (hdf5_dist)

This project models the core of `main.cpp`, an MPI + HDF5 program in which
every worker (MPI rank) contributes a buffer of a different size to one shared
one-dimensional dataset. The model covers the following steps:

- **Local segment.** Worker `r` builds a vector of `r + 10` copies of `r + 1`
  and stores its length in an `unsigned int` (`LocalSegment`).
- **Size table.** After the all-gather, every worker holds the table of all
  buffer sizes, ordered by rank (`Layout.SizeTable`). The model takes that
  table as an input sequence.
- **Offset resolution.** Each worker adds up the whole table to get the
  dataset extent `total_size`. It adds up the entries of lower ranks to get its
  start offset `my_start`. Both loops run in `unsigned int` arithmetic, which
  wraps modulo 2^32. The model writes the wrap out (`Resolver`).
- **Region placement.** The dataset is created with extent `total_size` and
  filled with HDF5's default fill value 0. Each worker selects the hyperslab
  `[my_start, my_start + my_size)` and writes its buffer there
  (`RegionWriter`). The collective write is modelled sequentially: one method
  writes one worker's region into an array, and a driver applies it for every
  rank in any order.

The specification of these steps is in `Partition` and `Layout`:

- `Sum` and `Start` are the prefix sums.
- `Owner` names the worker whose region holds a position.
- `Concat` is the buffers laid end to end in rank order.
- `Written` is the dataset after some of the workers have written.

The lemmas prove the following:

- Offsets step by size and never decrease with the rank.
- Every region lies inside the dataset.
- The regions are pairwise disjoint, and together they cover exactly
  `[0, total_size)`.
- A worker of size zero does not shift anyone else's offset.
- Once every rank has written, whatever the order, the dataset is the
  concatenation of the buffers. For four ranks that is 46 elements: 10 ones,
  11 twos, 12 threes and 13 fours.

Modules: `CInt` (cint.dfy, the C integer ranges), `Partition` (partition.dfy), `Layout` (layout.dfy), `LocalSegment`
(segment.dfy), `Resolver` (resolver.dfy), `RegionWriter` (region_writer.dfy),
`Program` (program.dfy).

## Model

| member | source | states |
|---|---|---|
| `LocalSegment.MySize` | main.cpp:38-39 | storing the buffer length in an `unsigned int` gives exactly the length; it is below 2^32 |
| `Program.TableIsMySizes` | main.cpp:38-44 | after the all-gather, entry `r` of the table is the `my_size` that rank `r` reported, one entry per worker, each below 2^32 |
| `Resolver.TotalSize` | main.cpp:47-49 | the accumulation loop yields the sum of every table entry modulo 2^32, which is the true sum when that sum is below 2^32 |
| `Resolver.MyStart` | main.cpp:51-53 | the accumulation loop yields the sum of the entries of ranks below `mpiRank` modulo 2^32; without wrap this is the exact prefix sum, and the worker's region ends at or before the total |
| `Resolver.OverflowWraps` | main.cpp:47-53 | no overflow is detected: sizes `[2^32 - 1, 1]` give an extent of 0, and rank 1's region lies outside it |
| `Partition.Start` | main.cpp:51-53 | rank 0 starts at offset 0, and the offset one past the last rank is the total |
| `Partition.StartStep` | main.cpp:51-53 | `start(r + 1) == start(r) + rank_sizes[r]` |
| `Partition.StartMonotone` | main.cpp:51-53 | start offsets are non-decreasing in the rank |
| `Partition.RegionInside` | main.cpp:85-109 | `my_start + my_size <= total_size` for every rank, so each hyperslab fits the dataset extent |
| `Partition.RegionsDisjoint` | main.cpp:99-109 | a lower rank's region ends at or before a higher rank's region begins; no position lies in both |
| `Partition.Owner` | main.cpp:99-109 | every position below the total lies in the region of some rank |
| `Partition.OwnerUnique` | main.cpp:99-109 | a position in rank `w`'s region lies inside the dataset, and `w` is its only owner |
| `Partition.RegionsTile` | main.cpp:47-53 | a position lies in some rank's region if and only if it lies in `[0, total_size)` |
| `Partition.ZeroSizeNeutral` | main.cpp:47-53 | dropping a zero-size worker from the table changes neither the total nor any higher rank's offset |
| `Layout.Concat` | main.cpp:47-49 | the rank-ordered concatenation of the buffers is exactly as long as the total of the size table |
| `Layout.ConcatAt` | main.cpp:99-118 | element `j` of rank `w`'s buffer sits at position `start(w) + j` of the concatenation |
| `Layout.Overwrite` | main.cpp:108-118 | writing a buffer at an offset sets positions `[offset, offset + count)` to the buffer in order and leaves every other position unchanged; an empty buffer changes nothing wherever its offset |
| `Layout.WrittenNone` | main.cpp:85-92 | the freshly created dataset holds the fill value 0 throughout |
| `Layout.WrittenStep` | main.cpp:117-118 | writing rank `r`'s buffer into its region turns the dataset into the one in which `r` has also written |
| `Layout.WrittenAll` | main.cpp:117-118 | once every rank has written, the dataset equals the concatenation of the buffers |
| `RegionWriter.WriteRegion` | main.cpp:99-118 | a selection that fits the extent is written in place and nothing else changes; an empty selection is accepted as a no-op at any offset; a non-empty one that does not fit is refused and the dataset is left unchanged |
| `RegionWriter.CollectiveWrite` | main.cpp:85-118 | the dataset's extent is the wrapped total; when the total does not wrap, applying every rank's write in any order leaves the dataset equal to the concatenation of the buffers |
| `Program.ValueIsRankPlusOne` | main.cpp:38-118 | every element of the final dataset equals the rank of the worker whose region holds it, plus one |
| `Program.ProgramTotal` | main.cpp:38-49 | for `n` workers the total extent is `n * (n + 19) / 2` |
| `Program.Run` | main.cpp:35-118 | running the program on `n` workers gives a dataset of extent `n * (n + 19) / 2` (mod 2^32); below 2^32 it holds the buffers in rank order |
| `Program.FourRanks` | main.cpp:38-53 | with four workers the dataset is 10 ones, 11 twos, 12 threes and 13 fours, 46 elements in all |

## Left out

- MPI bootstrap and teardown (`MPI_Init`, `MPI_Comm_size`, `MPI_Comm_rank`, `MPI_Finalize`). These are process plumbing. The rank and the worker count are plain parameters.
- The `MPI_Allgather` communication and its synchronisation. Only its result is modelled: the size table indexed by rank.
- HDF5 file and property-list creation, the mpio driver settings, dataspace creation and every close call. These are foreign library calls, and the on-disk format is not visible.
- The collective-transfer semantics of `H5Dwrite`, and any deadlock or failure behaviour. The write is modelled as a sequential array update, one rank at a time. Only its placement effect is captured.
- The refusal of a non-empty out-of-extent selection in `RegionWriter.WriteRegion` stands in for the error that HDF5 returns in that case. The program ignores that status, so the model does not report it further. A selection with `count` 0 is empty in HDF5 and always valid, so the model accepts it as a no-op at any offset.
- The element type `H5T_NATIVE_INT`: dataset elements are unbounded integers. The values written (`rank + 1`) fit in a C `int` for every rank.
- Debug prints, the unused `microsecond` global, the unused includes, and the unused `status`, `data` and `i` variables.
- The comment that the process count is 1 or a multiple of 2 up to 8. The code never checks it, and the model accepts any group of one or more workers.
- Overflow detection. The code has none: `total_size` and `my_start` wrap modulo 2^32 without any check. The model follows the code and writes the wrap out. With this program's buffers the total first wraps at 92673 workers.
- RegionWriter.CollectiveWrite: describes the final contents only when the true total is below 2^32. When it wraps, the model states only the extent.
- Program.Run: like `CollectiveWrite`, describes the final contents only when `n * (n + 19) / 2` is below 2^32.
- RegionWriter.CollectiveWrite: requires every buffer length to be below 2^32, so that storing `my_data.size()` in an `unsigned int` does not truncate. The program's own buffers always meet this (`LocalSegment.MySize`, `Program.TableIsMySizes`).
- Determinism of resolution (every worker computing the same total from the same table) is not stated separately: `Sum` and `Start` are functions of the table alone.
