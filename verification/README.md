# A model of libdwarfs-wr

libdwarfs-wr lets a program read files from immutable dwarfs images through POSIX-style calls. This
project models the layer above dwarfs in Dafny and proves properties of it. A dwarfs image is taken as a
read-only table from inode numbers to directories, files and links (`Dwarfs`); everything above that is
modelled as the C++ code does it: loops as loops, the classes whose methods update fields as classes.

`dafny verify dfyconfig.toml` checks the whole project.

## How the files are arranged

| file | subject |
|---|---|
| `Paths`, `PathText` | paths as component lists, lexical normalisation, and the text they are parsed from and written to |
| `Bits`, `Inodes` | the image index in the top bits of an inode number |
| `Dwarfs` | what an image is |
| `Resolver` | `find_inode`: the loop that rewrites its path in place, and a recursive reference resolver that consumes one component at a time |
| `ResolverRuns` | the meaning of a lookup, independent of how many iterations are allowed |
| `Routing` | inode numbers lead later calls back to the image they came from |
| `Composition`, `TrailingSeparator`, `Dots` | p/q is q resolved from the directory p; where dots break that |
| `Targets` | what the target of a link says, dots and all, and which targets mean the same |
| `Denotation` | what a path means, stated without rewriting it on the way |
| `Termination`, `Loops` | bounds on the loop, and when exactly it ends |
| `Lookup`, `Escape` | lookups that follow absolute links: inside the memfs from its root, outside handed to the host |
| `AbsoluteLinks` | what such lookups end with through any number of absolute links, and where later calls are routed |
| `OpenAt`, `Disagreement` | openat() against open(): when they agree, and worlds in which they do not |
| `AbsoluteTermination` | bounds on lookups through absolute links |
| `SingleNames`, `RootTexts` | paths of a single name; which texts `find_inode_root` takes for what |
| `Words`, `ReturnCodes`, `Kernel`, `FileTable` | open files: accounting of kernel descriptors, read, readv, lseek |
| `OpenFile` | from a path to the bytes of the file it resolves to |
| `DirStream`, `DirTable`, `Listed` | open directories: the window of 50 entries, the table of streams, scandir; what is listed is found |
| `PackageDescriptor` | the binary package descriptor |
| `MemfsTable` | choosing an image index, loading and mounting |
| `WorkingDir` | the working directory and path expansion |
| `Release` | releasing everything |
| `CommandLine`, `ArgumentVector` | option scanner and argument packers |

A lookup has a *meaning* (`ResolverRuns.Meaning`): the outcome of the loop if it ever stops, `Running`
otherwise. The loop itself is run for a given number of iterations and shown, for every number, to be
where the reference resolver is after as many steps, so statements about meanings are statements about
the unbounded loop.

## What the code does not guarantee

These came out of the proofs; each is a lemma, with the exact condition where there is one.

- openat() for q in the directory that open(p) leads to need not find what open(p/q) finds, nor end where that ends.
  The two agree if and only if the lookup of p meets no absolute link; or links are followed, and the walk to q comes
  to no link or mount that leads to the host; or they are not, and the walk to q ends on what was read last before
  that link of p (`OpenAt.OpenAtAgreesIff`; `Disagreement.OpenDiffers` has worlds in which they differ).
- An absolute link inside the memfs that leads on to the host is answered by a `stat` call on the host made on the
  way, and reported as found: exactly when one of the absolute texts followed inside the memfs starts a lookup from
  the root that is handed to the host (`AbsoluteLinks.HostStatIff`). The inode number in such an answer is the
  host's, and later calls on it are routed by it (`Disagreement.HostNumberMisleads`); all other answers are routed
  back to the inode they describe (`AbsoluteLinks.AnswersReach`).
- A lookup without following links that comes in mid-path to a link, or anywhere to a host mount, whose
  normal(target/rest) lies inside the memfs gives the attributes read last there: those of the link, or of the
  directory that holds the mount (`Escape.UnfollowedIff`).
- One bit is compiled in for the image index although indices 1 to 7 are handed out: calls on an image's
  root inode reach the image if and only if its index fits, and index 2 already gets the root image's own
  root inode (`Inodes.RootRoutesIff`, `Inodes.CompiledLayoutFits`, `MemfsTable.RootsFollowIndices`).
- Loading an image into a full table loads the root image again, and erases it if that fails. A failed
  load restores the table if and only if an index was free (`MemfsTable.FailedLoadRestoresIff`).
- The test by which `readdir` decides to load a window is the intended one if and only if the window is not an
  empty one at 0 (`DirStream.NeedsLoadIff`). An empty directory has such a window and is never read; a failed load
  empties the window where it stands, at 0 too, and then `readdir` on a position beyond the window's 50 entries points past the
  buffer (`DirStream.Stream.ReadDir` says for every state what it gives, `DirStream.Stream.GoAstray` gets there).
- Lengths in the package descriptor have 16 bits: longer strings are cut, and the round trip is exact if and
  only if every string fits (`PackageDescriptor.RoundTripExactIff`).
- There is no limit on links. The loop goes on for ever if and only if it comes to a name that, looked up alone, comes
  back to the same name in the same directory (`Loops.RunsForEverIff`), and a lookup through absolute links if and
  only if it does so with the hops to the root counted as steps (`Loops.EndsIff`). A link to itself is such a name, by
  its relative path (`Termination.SelfLinkNeverEnds`) and by its absolute one
  (`AbsoluteTermination.AbsoluteSelfLinkNeverEnds`).
- A text that begins with the mount point is normalised and looked up even if its normal form lies outside the memfs,
  and the lookup never reads its first 17 characters. It is the mount point or goes on behind it with a separator if
  and only if it names something inside; any other text of 17 characters or more is looked up from the root image
  as well (`RootTexts.LookedUpAsNamedIff`): for a name `a` as long as the mount point's, mount point/../a/f finds
  the memfs file f (`RootTexts.DetourFinds`).
- openat() passes its path on with its dots. From the directory that a link leads to, `..` is the parent of that
  directory, but behind the link it takes back the last component of the link's target: p/.. and `..` from p then
  lead to different directories (`Dots.DotsBreakComposition`).
- A link whose target comes to the directory that holds it, such as `.` or `a/..`, is not followed to that directory at the
  end of a path: the walk looks up the name `.` there (`Targets.OwnDirectory`).
- A relative `chdir` from inside the memfs leads outside if and only if its parent steps reach above the first name of
  the working directory and no name beginning like the mount point's follows them (`WorkingDir.LeavesIff`); relative
  paths go on being expanded against the directory outside (`WorkingDir.ParentOfMountPoint`).
- Extraction happens exactly when the scan comes to an argument that begins with `--tebako-extract`, so
  `--tebako-extractor` extracts too (`CommandLine.ExtractsIff`, `CommandLine.ExtractorExtracts`). An
  option and its `=` form agree if and only if the value is non-empty and no flag, a repeated
  `--tebako-run` aside (`CommandLine.EqualsFormIff`).

## Model

| member | source | states |
|---|---|---|
| Resolver.FindInode | src/tebako-memfs.cpp:165-273 | For every world of images and mounts, start, path and follow flag, and any limit on iterations, the in-place loop has the outcome of the reference resolver after as many steps: inode found, nothing, absolute link text, or still running. |
| Resolver.ProcessLink | src/tebako-memfs.cpp:421-435 | The link becomes normal(link/rest); if that is relative, as it is unless the link begins with a separator, it replaces the path and the iterator starts over, otherwise path and iterator stay. The new path is normal, and its components, entered one after the other from any directory, come to where those of the link and of the rest come to. |
| Resolver.ProcessInode | src/tebako-memfs.cpp:380-407 | Attributes are those of the inode; a link is processed unless it is last and not to be followed, and moves the iterator past itself either way. |
| Resolver.NextPath | src/tebako-memfs.cpp:206-209 | The path looked up in a mounted image is the components behind the mount point, appended one by one. |
| Resolver.StepOverHostMount | src/tebako-memfs.cpp:190-199 | One loop iteration at a host mount is one step of the reference: the mount acts as a link in its directory. |
| Resolver.StepByName | src/tebako-memfs.cpp:224-247 | One loop iteration by name is one step of the reference; a relative link takes the walk back to the directory it was found in. |
| Targets.LinkEntered | src/tebako-memfs.cpp:421-435 | For every target and every rest, dots included: a relative link or mount is gone on with in its own directory, an absolute one is reported; either way the path is normal, ends like the rest behind the target, and leads over the same names from every directory, or from the root. |
| Targets.TargetsAsNormal | src/tebako-memfs.cpp:421-435 | In any two worlds whose targets have the same normal forms and which are the same otherwise, every lookup has the same outcome, the size reported for a link aside. |
| Targets.SameTargets | src/tebako-memfs.cpp:421-435 | A link to ./t, to a/../t or to the normal form of t means what a link to t means. |
| Targets.OwnDirectory | src/tebako-memfs.cpp:421-435 | A target that comes to its own directory: with something behind it the walk goes on with that, at the end of a path it looks up the name `.`. |
| ResolverRuns.ResolveMore | src/tebako-memfs.cpp:185-248 | Once the walk has stopped, allowing more iterations changes nothing. |
| ResolverRuns.MeaningIs | src/tebako-memfs.cpp:185-248 | The loop has one meaning at most, whatever number of iterations it was seen to stop in. |
| Routing.GetAttrReaches | include/tebako-memfs-table.h:90-104 | Attributes read in an image carry an inode number that routes back to that image and to the same attributes. |
| Routing.RoutingSound | include/tebako-memfs-table.h:90-104 | Whatever image find_inode ends in, the inode number it returns leads later calls to that image and to the inode whose attributes were returned, provided indices fit. |
| AbsoluteLinks.AnswersReach | include/tebako-memfs-table.h:90-104 | The same for the lookups behind open, openat and stat: through any number of absolute links, an answer from the memfs leads later calls back to the inode it describes. |
| AbsoluteLinks.HostStatIff | src/tebako-memfs.cpp:300-318 | A lookup answers with what the host says of a text if and only if links are followed and one of the absolute texts it follows inside the memfs starts a lookup from the root that is handed to the host with that text. |
| Disagreement.HostNumberMisleads | src/tebako-memfs.cpp:303-311 | A witness: the inode number in such an answer is the host's, and a file of the host with number 2 is taken for inode 2 of the root image. |
| Composition.ResolveDeeper | src/tebako-memfs.cpp:185-248 | Walking to p and on to q and walking to q from p's directory have the same outcome, step counts included, whichever of the two is known to stop. |
| Composition.ResolveBelowDirectory | src/tebako-memfs.cpp:165-273 | For a non-empty relative q without dots, and links and mounts without dots, p/q means what q means from the inode that p resolves to; neither ends if the other does not. |
| Composition.NormalHasNoDots | src/tebako-io-helpers.cpp:211-219 | The absolute normal paths that the resolver is given have no dots in them. |
| TrailingSeparator.ResolveBelow | src/tebako-memfs.cpp:165-273 | The composition law for every relative q, the empty one with the trailing separator it leaves included, and both values of the follow flag, through any links, host mounts and image mounts. |
| TrailingSeparator.ResolveSeparated | src/tebako-memfs.cpp:185-248 | A trailing separator makes the walk enter a final link whatever the flag says, and changes nothing else. |
| Dots.DotsBreakComposition | src/tebako-memfs.cpp:421-435 | A family of worlds in which `..` from the directory that a link leads to is another directory than what the link followed by `..` resolves to. |
| Denotation.Denoted | src/tebako-memfs.cpp:165-273 | For every world in which `..` is neither a link nor a mount point and no relative target comes to its own directory, every relative path with parent steps in front only, and both values of the follow flag: a lookup ends if and only if its path leads to some end, and answers what that end is: an inode, nothing, or the text of an absolute target. A link leads to where the normal form of its target leads from its own directory and the rest leads on from there, with no rewriting. |
| Denotation.FoundIff | src/tebako-memfs.cpp:165-273 | It finds certain attributes if and only if the path leads to an inode that has them. |
| Denotation.NoEntryIff | src/tebako-memfs.cpp:224-243 | It finds nothing if and only if the path leads nowhere. |
| Denotation.AbsoluteIff | src/tebako-memfs.cpp:421-435 | It ends with an absolute text if and only if the path leads off to an absolute target and the text is that of normal(target/rest). |
| Denotation.LeadsOn | src/tebako-memfs.cpp:185-248 | A path and another behind it lead where the second leads from where the first leads; behind a path that leads nowhere or off to an absolute target the second is not looked up but left behind. |
| Denotation.LeadsApart | src/tebako-memfs.cpp:185-248 | And whatever both lead to together, the first leads to some end from which the second leads there. |
| Termination.WeightNormal | src/tebako-memfs.cpp:421-429 | Normalisation never raises the weight of a path. |
| Termination.StepWeight | src/tebako-memfs.cpp:185-248 | In a ranked world every step, through a link, a host mount or an image mount, makes what is left of the path weigh less. |
| Termination.RankedStops | src/tebako-memfs.cpp:185-248 | In a ranked world the loop and its nested loops stop within as many iterations as the path weighs: the sum over its components of (K+1) to the power of the rank. |
| Termination.LookupEnds | src/tebako-memfs.cpp:165-273 | So every lookup in a ranked world ends, and within that bound it has its meaning. |
| Loops.StopsIff | src/tebako-memfs.cpp:185-248 | From any place, with or without hops to the root counted as steps, the walk stops if and only if it comes to no name that, looked up alone, comes back after at least one step to the same name in the same directory of the same image. |
| Loops.RunsForEverIff | src/tebako-memfs.cpp:185-248 | So the loop goes on for ever if and only if it comes to such a name, for both values of the follow flag and every path with or without a trailing separator. |
| Loops.EndsIff | src/tebako-memfs.cpp:290-330 | And a lookup that follows absolute links inside the memfs ends if and only if it comes, through any number of them, to no such name. |
| Termination.SelfLinkNeverEnds | src/tebako-memfs.cpp:185-248 | Without a ranking the loop need not end: the lookup of a link to itself has no outcome. |
| AbsoluteTermination.AbsoluteLookupEnds | src/tebako-memfs.cpp:290-330 | If absolute targets are ranked as well and their texts fit the path buffer, every lookup ends through any number of relative and absolute links. |
| AbsoluteTermination.BackToItself | src/tebako-memfs.cpp:300-313 | A lookup that comes back to its own path through an absolute link never ends. |
| AbsoluteTermination.AbsoluteSelfLinkNeverEnds | src/tebako-memfs.cpp:300-313 | So it is with a link to itself by its absolute path. |
| Lookup.FindInodeAbs | src/tebako-memfs.cpp:290-330 | Absolute links outside the memfs are handed back with their text; inside they are followed from the memfs root if asked for, else the attributes read last are returned. |
| Lookup.FindInodeRoot | src/tebako-memfs.cpp:346-362 | Behind the mount point and a separator, the text of any relative path is looked up as that path from the root image; shorter texts, and texts without a root image, name nothing. |
| RootTexts.FrontUnread | src/tebako-memfs.cpp:346-362 | Whatever its first 17 characters are and the one behind them, a text is looked up as if they were the mount point and a separator. |
| RootTexts.LookedUpAsNamedIff | src/tebako-memfs.cpp:346-362 | The text of an absolute path without dots is the mount point, or goes on behind it with a separator, if and only if the path lies inside the memfs; then what is behind the mount point is looked up from the root image, and so is what is behind 17 characters of any other text that long. |
| RootTexts.DetourFinds | src/tebako-io-helpers.cpp:214-219 | Witnesses: mount point/../a/f is handed on as /a/f, which lies outside, and looked up as f in the root image. |
| Lookup.TebakoStat | src/file-ctl.cpp:149-175 | For any spelling of a path whose normal form is below the mount point, what is behind the mount point is looked up from the root image; a link that leads outside is never reported as such, but looked at on the host. |
| Lookup.EndsIs | src/tebako-memfs.cpp:290-330 | What a lookup ends with, for each meaning of the walk: an absolute link followed inside the memfs ends with what the lookup from the root ends with, made into an answer of stat. |
| Lookup.FindAbsMore | src/tebako-memfs.cpp:290-330 | More iterations do not change how a lookup through absolute links ended. |
| Lookup.EndsOnce | src/tebako-memfs.cpp:290-330 | A lookup through absolute links has one result at most. |
| OpenAt.BelowAbsolute | src/tebako-memfs.cpp:421-435 | Where the lookup of p comes to an absolute link, that of p/q comes to the same link with q behind it, for every q and both values of the follow flag. |
| OpenAt.OpenAtIs | src/tebako-fd.cpp:122-145 | For a directory that open(p) leads to, through any number of relative and absolute links: open(p/q) ends if openat of q does and with the same, but that it answers for the host if the lookup of p meets an absolute link, and stops at that link if links are not followed. |
| OpenAt.OpenAtAgreesIff | src/tebako-fd.cpp:122-145 | The two calls agree on every result, and on whether there is one, if and only if the lookup of p meets no absolute link; or links are followed and the walk to q comes to no text outside the memfs; or they are not, and the walk to q finds what was read last before that link of p or comes to a text inside the memfs with it read last. |
| Disagreement.OpenDiffers | src/tebako-fd.cpp:122-145 | Worlds within the premises of that law in which openat is told to go to the host while open answers for the host, or gives the attributes of the link. |
| Escape.AbsoluteIff | src/tebako-memfs.cpp:185-248 | The loop ends with an absolute text, and with certain attributes read last, if and only if it comes, through any links and mounts, to a host mount or a link to be entered whose normal(target/rest) is absolute and has that text. |
| Escape.OutsideIff | src/tebako-memfs.cpp:290-318 | For every path a lookup is handed to the host with a text if and only if it comes to such a component, the text is that of normal(target/rest), and it lies outside the memfs. |
| Escape.UnfollowedIff | src/tebako-memfs.cpp:302-313 | For every path a lookup without following links gives certain attributes if and only if the loop finds them, or it comes to such a component with a text inside the memfs and they were read last there. |
| Escape.HostMountLeadsOutside | src/tebako-memfs.cpp:190-199 | A path p/m/rest with a host mount m in the directory p leads outside with exactly the text normal(target/rest). |
| Escape.LinkLeadsOutside | src/tebako-memfs.cpp:421-435 | The same for a symbolic link m with an absolute target, unless it is last and not to be followed. |
| Escape.HostMountInsideNotFollowed | src/tebako-memfs.cpp:302-313 | A host mount that leads back into the memfs, looked up without following, gives the attributes of the directory that holds it. |
| Escape.OutsideTextReadsBack | src/tebako-memfs.cpp:427-428 | The text handed to the host reads back as normal(target/rest). |
| Inodes.EncodeIsAddition | include/tebako-memfs-table.h:56-59 | The OR of the encoder is an addition, for every index and inode. |
| Inodes.DecodeEncode | include/tebako-memfs-table.h:53-59 | Decoding inverts encoding for indices and inodes that fit, within the inode word. |
| Inodes.EncodeDecode | include/tebako-memfs-table.h:53-59 | Encoding inverts decoding for every inode word. |
| Inodes.WalkSumIsEncoded | src/tebako-memfs.cpp:186 | The sum of root inode and local inode that the walk forms is the encoded pair. |
| Inodes.DisjointRanges | include/tebako-memfs-table.h:48-59 | Images with indices that fit never share an inode number. |
| Inodes.RootRoutesIff | src/tebako-memfs-table.cpp:100-105 | Calls on an image's root inode are routed to it if and only if its index fits the top bits. |
| Inodes.RootsCollideIff | src/tebako-memfs-table.cpp:100-105 | Two indices get the same root inode if and only if they agree in the bits that fit. |
| Inodes.CompiledLayoutFits | include/tebako-memfs-table.h:48-51 | With the compiled-in constants exactly the indices 0 and 1 fit, the root inodes are 0 and 2^31 by turns, and index 2 collides with the root image. |
| Paths.NormalIsNormal | src/tebako-io-helpers.cpp:65-75 | What normalisation returns is normal: file names, parent steps in front only and only without a root, no separator behind a parent step. |
| Paths.NormalFixed | src/tebako-io-helpers.cpp:65-75 | Normal paths are left alone. |
| Paths.NormalIdempotent | src/tebako-io-helpers.cpp:81-89 | Normalisation is idempotent. |
| Paths.NormalRules | src/tebako-io-helpers.cpp:65-75 | What normalisation takes away: a `.`, a name together with the `..` behind it, and a `..` at the root, wherever they stand. |
| Paths.NormalEnd | src/tebako-io-helpers.cpp:65-75 | A path that ends in a name ends in that name; one that ends in `.`, `..` or a separator comes to an end that is open. |
| Paths.NormalSlashRight | src/tebako-io-helpers.cpp:207-215 | normal(c/normal(q)) = normal(c/q). |
| Paths.NormalSlashLeft | src/tebako-io-helpers.cpp:65-89 | normal(normal(c)/q) = normal(c/q). |
| PathText.RoundTrip | src/tebako-memfs.cpp:428 | Every path that parsing can produce reads back from its generic text. |
| PathText.ParseAddSeparator | src/tebako-io-helpers.cpp:67-70 | Adding a separator to a text is adding one to the path, repeated separators counting once. |
| PathText.NormalReadsBack | src/tebako-io-helpers.cpp:207-219 | A normal path reads back from its text. |
| Kernel.ClosedOnce | include/tebako-fd.h:45-53 | In a history without double takes or stray closes every descriptor was closed as often as it was taken, those still held excepted. |
| FileTable.FileTable.Open | src/tebako-fd.cpp:49-120 | For writing: EROFS; else, if something was found, ENOTDIR for what is no directory with O_DIRECTORY, ELOOP for a link with O_NOFOLLOW, and otherwise an entry under exactly the descriptor that dup returned, which replaces none; if nothing was found, ENOENT. Refused, the table, the history and the process's descriptors are unchanged. |
| FileTable.FileTable.OpenAt | src/tebako-fd.cpp:122-215 | Bad descriptors, files and unsearchable directories are refused first; then the same, for what was found relative to the directory. |
| FileTable.FileTable.Close | src/tebako-fd.cpp:217-220 | Exactly the entry and its kernel descriptor go; an unknown descriptor changes nothing. |
| FileTable.FileTable.CloseAll | src/tebako-fd.cpp:222-225 | No entry is left and every descriptor of the table was given back. |
| FileTable.InodeReadIs | src/tebako-memfs.cpp:490-501 | A read is exact if and only if its bytes fit an int; they are those of the file from the position on, as many as asked for or left, and no more than that is ever reported. |
| FileTable.FileOfIs | include/tebako-memfs-table.h:90-104 | In a mounted world reads on the number of a file are reads of that file's bytes, and reads on any other number fail. |
| FileTable.FileTable.Read | src/tebako-fd.cpp:250-262 | Byte i delivered is byte i behind the position, as many as asked for or left; the count returned is what an int makes of that, a failure if negative, and the position moves on by it. |
| FileTable.FileTable.ReadVector | src/tebako-fd.cpp:304-330 | A vector gets what inode_read gives, whatever its length; neither overflow branch is taken, and the position moves on by the count returned. |
| FileTable.FileTable.ReadV | src/tebako-fd.cpp:287-333 | Vectors of any lengths are read in turn until one gets nothing; if none can take more than an int counts, put together they hold the bytes from the position on, every vector is filled before the next one gets anything, and only an empty vector or the end of the file stops it. The call fails if and only if it comes to a vector that fails, whatever was read before it; a negative count is refused. |
| FileTable.ReadVectorsIs | src/tebako-fd.cpp:304-330 | Reading vectors in turn returns, lays out and advances like one read of the summed length of the vectors before the first empty one, if no vector can take more of the file than an int counts. |
| FileTable.ReadVIsRead | src/tebako-fd.cpp:287-333 | Put together in order, what lands in the vectors is what that one read delivers, and the entry afterwards is the same. |
| FileTable.ChopHoldsAll | src/tebako-fd.cpp:304-330 | Spread over buffers that are large enough in all, no byte is lost or moved. |
| FileTable.FileTable.Run | src/tebako-fd.cpp:250-400 | Any run of read, readv and lseek calls on an open file delivers what the calls deliver from where each finds the position, and changes that position only; without seeks the bytes are one slice of the file from where the run began, as long as all calls ask for. |
| FileTable.ReadsAreConsecutive | src/tebako-fd.cpp:250-262 | The fact behind it: reads and vectored reads without seeks, put together, are one slice of the file. |
| FileTable.PositionStaysSound | src/tebako-fd.cpp:250-400 | Over any run of reads, vectored reads and seeks the position stays within the signed offset type. |
| FileTable.FileTable.LSeek | src/tebako-fd.cpp:336-400 | In the machine's mixed signed and unsigned arithmetic, lseek is lseek() of POSIX.1-2017: the new position is the offset from the beginning, the position or the end, and it is returned; below 0 EINVAL, above the largest offset EOVERFLOW, with the position unchanged. |
| OpenFile.FileAnswered | src/tebako-fd.cpp:49-91 | The answer to a lookup of a file describes an inode that is that file, reads on its number are reads of its bytes, and their count is the size reported. |
| OpenFile.OpenAndRead | src/tebako-fd.cpp:49-262 | Opening a path and reading delivers, byte for byte, the beginning of the file of the very inode that the path resolves to; what the host says of a link's text is answered as found. |
| DirStream.NeedsLoadIff | src/tebako-dirent.cpp:153-154 | The window test is the intended one if and only if the window is not an empty one at 0. |
| DirStream.FillWindow | src/tebako-memfs.cpp:503-578 | The window holds the entries from its start on, with their offsets, names and numbers, as many as fit or are left, none past the end, and the rest of the buffer is untouched. |
| DirStream.Stream.LoadCache | src/tebako-dirent.cpp:179-195 | A load establishes the window invariant and sets the position if asked to; a failed one invalidates position and window. |
| DirStream.Stream.ReadDir | src/tebako-dirent.cpp:137-177 | For every state and whatever the descriptor leads to by now: the answer, the position and the window afterwards. The entry read at position i has offset i, the name of entry i cut to 4096 characters, and its inode number. While the descriptor leads to the directory listed, the answer is that of the plain list with a cursor if and only if the window is not an empty one at 0 with the position beyond it. |
| DirStream.Stream.GoAstray | src/tebako-dirent.cpp:149-171 | That state is reached by closing the descriptor, a failed load, and a seek. |
| DirStream.Stream.SeekDir | src/tebako-dirent.cpp:114-124 | Any signed 64-bit position may be sought, with the window kept. |
| DirStream.Stream.Run | src/tebako-dirent.cpp:103-177 | Any interleaving of readdir, seekdir and telldir on one stream answers like the plain list of entries with an integer cursor: every entry read is the one under the cursor, and reading on from the beginning lists all of them in order and then ends. |
| DirStream.CursorRunAnswers | src/tebako-dirent.cpp:103-177 | What the list with a cursor answers to each call of a run: the entry under the cursor, or that it is past the end or before the beginning. |
| DirTable.ListingIs | include/tebako-memfs-table.h:90-104 | In a mounted world the number of a directory leads to its own listing, and any other number to none. |
| DirTable.ListedReaches | src/tebako-memfs.cpp:517-534 | The number listed for an entry is the child's, and later calls on it are routed to the child. |
| Listed.ListedIsFound | src/tebako-memfs.cpp:503-578 | Looking up a name as listed, from the directory's number, finds the number that was listed with it. |
| DirTable.Directories.OpenDir | src/tebako-dirent.cpp:49-80 | Opening a directory makes one stream with its first window loaded and the cursor at 0; on anything else the table is unchanged. |
| DirTable.Directories.ReadDir | src/tebako-dirent.cpp:137-177 | On the table: an unknown stream is refused, other streams are untouched, an entry read has the offset, name and number of the one at the stream's position, a load that is due fails with the result that the descriptor calls for, and while the descriptor leads to its directory the answer is that of the list with a cursor. |
| DirTable.Directories.SeekDir | src/tebako-dirent.cpp:114-124 | Only the position of that stream changes. |
| DirTable.Directories.Run | src/tebako-dirent.cpp:49-177 | Any interleaving of opendir, readdir, seekdir, telldir and closedir on any number of streams answers like as many plain lists with a cursor each, while each descriptor leads to its directory; every entry read is the one under that stream's cursor at the time. |
| DirTable.Directories.CloseDir | src/tebako-dirent.cpp:82-92 | The stream and the descriptor it was opened on go, and nothing else. |
| DirTable.Directories.CloseAll | src/tebako-dirent.cpp:94-101 | All streams go, and exactly the descriptors they were opened on. |
| Release.ReleaseMemfsResources | src/tebako-io-root.cpp:47-55 | No stream, open file, mount point or working directory is left, and every descriptor ever taken was closed exactly as often as it was taken. |
| Release.UnmountRootMemfs | src/tebako-io-root.cpp:148-152 | And no image is left. |
| DirTable.RunAndRelease | src/tebako-io-root.cpp:47-55 | No stream and no open file is left, and every descriptor taken was closed as often as it was taken, after any run of open, openat, close, opendir, readdir, seekdir, closedir, close_all and of the host's own opens and closes, whatever free descriptors the kernel hands out. |
| DirTable.Directories.Collect | src/dir-io.cpp:255-274 | The loop of scandir lists exactly the accepted entries, in order and once each, never writes past the list, and makes one window load for every 50 entries. |
| DirTable.Directories.ScanOpen | src/dir-io.cpp:251-275 | On an open directory both tables are left as found but for the descriptor, which is closed. |
| DirTable.Directories.ScanDir | src/dir-io.cpp:223-299 | A scan collects the entries that `sel` accepts and no others, all of them, in the order of the listing, with the list sized by the directory and one window load for every 50 entries, and leaves both tables and the process's descriptors as found; a path outside is left to the host; a path that does not open as a directory changes nothing; without a list to fill, or if the directory cannot be listed, the descriptor stays open. |
| PackageDescriptor.Deserialize | src/tebako-package-descriptor.cpp:38-99 | The offset-driven reader accepts, rejects and returns what the format's parser does; it rejects for the signature if and only if the buffer does not begin with it, and else for being too short. |
| PackageDescriptor.Serialize | src/tebako-package-descriptor.cpp:122-160 | The buffer, byte by byte: the signature, both versions' three words, the strings behind their 16-bit lengths, the flag; low bytes first. |
| PackageDescriptor.ReadString | src/tebako-package-descriptor.cpp:64-70 | A length, a check that as many bytes are there, and those bytes; the offset never leaves the buffer. |
| PackageDescriptor.RoundTrip | src/tebako-package-descriptor.cpp:38-160 | Reading what was written, followed by anything, gives the descriptor with strings cut to 16-bit lengths, and leaves what followed. |
| PackageDescriptor.RoundTripExactIff | src/tebako-package-descriptor.cpp:138-156 | The round trip is exact if and only if all strings are shorter than 65536 bytes. |
| PackageDescriptor.Canonical | src/tebako-package-descriptor.cpp:80-98 | Any successful parse consumed the encoding of its result, but for a presence flag that may be any non-zero byte. |
| PackageDescriptor.DecodeMore | src/tebako-package-descriptor.cpp:38-99 | What follows a descriptor does not change how it is read. |
| PackageDescriptor.StrictPrefixRejected | src/tebako-package-descriptor.cpp:42-48 | Every strict prefix of an encoding is rejected. |
| PackageDescriptor.PrefixFree | src/tebako-package-descriptor.cpp:122-160 | One encoding begins another only if the two are the same. |
| MemfsTable.FirstFreeIs | src/tebako-memfs-table.cpp:86-106 | The index chosen is the smallest unused one from 1 to 7, and 0 means that all are used. |
| MemfsTable.Tables.InsertAuto | src/tebako-memfs-table.cpp:86-106 | One pass over the keys in ascending order finds the smallest unused index from 1 to 7, and the table gets the image there with its root inode; if there is none, the table stays as it was. |
| MemfsTable.Tables.LoadMemfs | src/tebako-io-root.cpp:57-70 | While an index is free, the smallest one is taken if the image loads and nothing changes if not; in a full table the result is 0, but that the root image goes if it does not load again. |
| MemfsTable.Tables.MountMemfs | src/tebako-io-root.cpp:78-90 | A mount point is added for a loaded image and never replaces one. |
| MemfsTable.FailedLoadRestoresIff | src/tebako-io-root.cpp:57-70 | A failed load restores the table if and only if an index was free; in a full one it erases the root image. |
| MemfsTable.FailedLoadsLeaveNoTrace | src/tebako-io-root.cpp:57-70 | A history of loads in a table that never fills up leaves what the loadable images alone would have left. |
| MemfsTable.RootsFollowIndices | src/tebako-memfs-table.cpp:100-105 | After any history of loads every image has the root inode of its index, and calls on it reach it exactly for the indices 0 and 1. |
| WorkingDir.WorkingDirectory.Chdir | src/dir-ctl.cpp:88-126 | The working directory is always none, or absolute and normal; it moves only on success: for an absolute path inside the memfs to normal(path/), wherever it was, for a relative one from c to normal(c/path/), and for a path that is the host's to none. |
| WorkingDir.TakenIff | src/tebako-io-helpers.cpp:207-224 | An absolute text is the library's if and only if it begins with the mount point, with the same result whatever the working directory is, and reads back as its normal form; a relative one if and only if there is a working directory. |
| WorkingDir.WorkingDirectory.ChdirAll | src/dir-ctl.cpp:88-126 | A run of chdir calls that all succeed along relative paths takes the working directory from normal(x/) to normal(x/p1/.../pn/). |
| WorkingDir.ExpandedIs | src/tebako-io-helpers.cpp:207-224 | A relative path, normalised, written, read and expanded, is normal(cwd/path). |
| WorkingDir.MovedTo | src/tebako-io-helpers.cpp:65-75 | A relative move takes the working directory from c to normal(c/path/). |
| WorkingDir.MovesAdd | src/tebako-io-helpers.cpp:65-89 | Moving step by step, through texts that are written and read back each time, is one normalisation of the whole path, and absolute and normal. |
| WorkingDir.LeavesIff | src/tebako-io-helpers.cpp:207-219 | For every working directory inside the memfs and every relative path, the exact condition for a move to lead outside. |
| WorkingDir.SquashMoves | src/tebako-io-helpers.cpp:81-89 | A relative path's parent steps take as many names of the directory away as there are, then its own names are added. |
| WorkingDir.ParentOfMountPoint | src/tebako-io-helpers.cpp:78-89 | From the mount point, the parent is the host's root, and it is kept as a working directory. |
| CommandLine.ParseArguments | src/tebako-cmdline.cpp:120-253 | The index loop with its early exit and errors is the recursive scanner. |
| CommandLine.Argument | src/tebako-cmdline.cpp:135-252 | One pass of the loop consumes one or two arguments, or ends the scan, as the scanner does. |
| CommandLine.ScanPieces | src/tebako-cmdline.cpp:135-251 | Behind any mounts, one image and other arguments, in either spelling, the scan goes on with all rules and all other arguments collected in order, and with that image. |
| CommandLine.EndIs | src/tebako-cmdline.cpp:139-247 | With what error, or with what extraction folder, an argument ends the scan that it does not go past. |
| CommandLine.EveryLine | src/tebako-cmdline.cpp:134-252 | Every command line consists of such pieces up to its end or up to an argument that ends the scan. |
| CommandLine.EqualsForm | src/tebako-cmdline.cpp:139-217 | Writing an option and its value as one `=` argument changes nothing, wherever it stands and however the scan ends. |
| CommandLine.EqualsFormIff | src/tebako-cmdline.cpp:139-250 | The two forms have the same immediate effect if and only if the value is non-empty and no flag, a repeated --tebako-run aside. |
| CommandLine.ExtractsIff | src/tebako-cmdline.cpp:173-247 | The package is extracted if and only if the scan comes to an argument that begins with --tebako-extract. |
| CommandLine.ExtractorExtracts | src/tebako-cmdline.cpp:228-247 | So --tebako-extractor extracts, into the default folder. |
| CommandLine.OthersAreOthers | src/tebako-cmdline.cpp:250-251 | Nothing that is collected as another program's argument is one of the library's options. |
| CommandLine.ScanAgain | src/tebako-cmdline.cpp:120-253 | Scanning the collected arguments again returns them all and sets no option. |
| ArgumentVector.BuildForRun | src/tebako-cmdline.cpp:84-118 | The buffer is filled exactly, every slot points inside it at its NUL-terminated string, and splitting at the NULs gives arg0, mount point joined with entry point, and the rest. |
| ArgumentVector.BuildForExtract | src/tebako-cmdline.cpp:60-82 | The same for the three arguments that extract the package. |
| ArgumentVector.ExtractArgumentsAre | src/tebako-cmdline.cpp:62-63 | The program, `-e`, and the command that copies the mount point to the folder. |
| ArgumentVector.RunBufferSize | src/tebako-cmdline.cpp:86-89 | The size summed up beforehand is exactly what the packed strings take. |
| ArgumentVector.SplitPacked | src/tebako-cmdline.cpp:84-118 | Splitting a packed buffer at its NULs gives the strings back. |
| ArgumentVector.SlotPoints | src/tebako-cmdline.cpp:97-115 | The offset of a string, the size of the strings before it, points at it. |

## Left out

Weaker than the code, or with a premise that the code does not check:

- FileTable.FileTable.LSeek: SEEK_CUR and SEEK_END with offset INT64_MIN are excluded, because the code negates the offset and that is undefined for INT64_MIN.
- FileTable.FileTable.Open: dup(0) succeeds, as in `FileTable.FileTable.OpenAt`; when it fails the code destroys an entry whose handle was never set. The reply of the lookup is a parameter; `OpenFile.OpenAndRead` supplies it.
- FileTable.FileTable.OpenAt: as for `FileTable.FileTable.Open`.
- Termination.LookupEnds: the ranking of names gives a bound on the iterations and is sufficient, not necessary; `Loops.RunsForEverIff` has the exact condition.
- AbsoluteTermination.AbsoluteLookupEnds: likewise, with the premises of `OpenAt.OpenAtIs` on links and texts; `Loops.EndsIff` has the exact condition.
- Loops.RunsForEverIff: paths, relative link targets and relative mount targets are free of `.` and `..`, as for the composition law.
- Loops.EndsIff: also under the premises of `OpenAt.OpenAtIs` on absolute targets and on the length of the texts followed.
- OpenAt.OpenAtIs: p and q are free of `.` and `..`, as are relative targets; absolute targets do not name the root and, if their first name begins like the mount point's, it is the mount point's; the absolute texts followed fit the path buffer.
- OpenAt.BelowAbsolute: under the same premises, but for the length of texts.
- OpenAt.OpenAtAgreesIff: under the same premises.
- Composition.ResolveBelowDirectory: for non-empty q; `TrailingSeparator.ResolveBelow` has the empty one. Paths, relative link targets and relative mount targets must be free of `.` and `..`: the walk normalises targets against the rest of the path, so a `..` behind a link takes back the link's last component instead of leading to the parent of where it points (`Dots.DotsBreakComposition`).
- Escape.HostMountLeadsOutside: under the premises of the composition law; `Escape.OutsideIff` has none of them.
- Escape.LinkLeadsOutside: under the same premises.
- Escape.HostMountInsideNotFollowed: under the same premises, and for mounts only; `Escape.UnfollowedIff` has both directions, links, and none of the premises.
- Resolver.FindInode: starts that are links are excluded (lookups start at image roots and open directories), and the loop is run with a limit on iterations, for every limit. Sums of inode numbers do not wrap; `Routing.IsMounted` says when they cannot.
- DirStream.Stream.Run: while loads succeed, for directories of at most INT32_MAX entries; `DirStream.Stream.ReadDir` has the other states.
- DirTable.Directories.Run: while every descriptor that a directory was opened on leads to that directory.
- DirTable.Directories.ReadDir: when the descriptor no longer leads to its directory, only that the table stays in order and the other streams are untouched; the stream's own contract has the rest.
- DirStream.FillWindow: dwarfs lists every entry of a directory; a listing that breaks off midway is not modelled.
- DirTable.Directories.ScanDir: malloc succeeds, also for the empty list of an empty directory. Sorting by `compar` is left out, and `sel` has no side effects.
- DirTable.RunAndRelease: dup(0) always succeeds with a descriptor that is not open, and the library's descriptors are closed through the library only.
- Denotation.Denoted: relative targets do not come to nothing or to `.` (`Targets.OwnDirectory` has those), `..` is nowhere a link or a mount point, and the path looked up has no `.` and no `..` behind a name; what was read last before an absolute target is in `Escape.AbsoluteIff`. So it is with the corollaries.
- FileTable.FileTable.Run: every read fits an int and no seek is by INT64_MIN from the position or the end; `FileTable.FileTable.Read` and `FileTable.FileTable.ReadV` have the other reads.
- WorkingDir.MovesAdd: for paths that the 4096-character path buffer holds whole; so it is with the moves that `WorkingDir.WorkingDirectory.Chdir` spells out.
- Listed.ListedIsFound: for entries listed whole, with nothing mounted on them, of directories that find by name what they list.
- ArgumentVector.BuildForRun: the list of collected arguments is not empty; the code reads its first element unconditionally.

Not modelled:

- dwarfs itself, decompression, its errors, logging and option parsing: images are tables with total, deterministic lookups.
- The callers in src/dir-io.cpp that open directories by name, but for scandir.
- File table entries are map values: sharing of an entry through a shared pointer is not captured.
- pread, fstatat, flock, getcwd and i_access: one branch each; whether a directory may be searched is a parameter.
- parse_version and process_mountpoints: stream extraction and file access.
- Host calls: their results are parameters.
- Concurrency: the source changes positions under shared locks and promises nothing about it.
- Out-of-memory paths, Windows branches, hosts that are not little-endian.
- src/dl-ctl.cpp, src/tebako-mfs.cpp, src/tebako-kfd.cpp and the forwarding wrappers.
