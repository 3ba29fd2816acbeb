# Verified model of the bundled Redis 3.0.3

This project models the parts of the bundled Redis server where a small slip loses or invents data, and proves what
they promise for every input, every interleaving and every run.

**The append only file** (`aof.c`, with the commands of `db.c` and the type files). `Wire` is the wire format and its
reader, `Keyspace` and `Commands` are the dataset and what commands do to it and to the log, `Log` is feeding and
loading, `Coverage` and `Durability` relate a log to a dataset command by command, `Dump` and `Rewrite` are the
rewriter. `Protocol` is the server with its disk, its forked child and the pipes between them as a machine of twelve
steps; every count a system call may return, every failure and every clock reading is a parameter of a step. `Safety`
has the invariant of all runs, `SparedKeys` and `PlainLogs` what may be left out of a replay and what the time of a load
does to it. `Restart` has the promises, over any number of lifetimes each ended by a crash that leaves any first part
of the file, and `Limits` says exactly where the code falls short of them. `RewriteBuffers` and `AofServers` are the
same code on mutable blocks and fields, proved equal to the steps. Two modules say what is meant without leaning on
the functions that compute it: `Meanings` what each command does to keys, values and expire times, and `Progress` what
each step of the protocol achieves, and that a rewrite can always be brought to its end.

**The keyspace** (`db.c`): `Databases` is a database as two dictionaries and the cluster's slot index, changed in
place; `Slots` is the index and what is counted and deleted with it.

**Bit strings** (`bitops.c`): `Bits`, `Popcount`, `Bitpos` and `Bitop` prove the word-at-a-time code equal to its
meaning bit by bit, for every length, start address and byte order.

**Checksums** (`crc64.c`, `crc16.c`, `cluster.c`): `Polynomials` is long division over the two-element field; `Crc64s`
and `Crc16s` prove the tables and loops equal to it, and what follows: checksums compose, no damage of up to eight
consecutive bytes goes unnoticed, and keys with the same tag share a slot.

**Background jobs and lists** (`bio.c`, `adlist.c`): `Bio` is the queue with any number of client threads and the
worker, in every interleaving; `Adlist` is the doubly linked list on the heap.

How a log stands for a dataset is said in three strengths, the type `Claim` of `Safety`. `OnlyBytes` speaks of bytes
alone and asks nothing of a run. `Loose` says that a load gives the dataset up to keys whose expire time has passed,
where a replayed key may expire later than the live one. `Exact` says that the expire times agree as well. What the two
stronger claims ask concerns the lifetime since the last restart only; what earlier lifetimes did is settled by the
load. Of its commands they ask what `Limits` proves to be the exact condition, command by command and at every point of
a history: no PERSIST revives an expired key that the log has lost, and for `Exact` no expire time is stored that a
replay sets to another, as a SET with EX or PX does, or an EXPIRE, PEXPIRE, SETEX or PSETEX between whose clock
readings the clock moves. The same is asked for the rewritten log in the making, and of a rewriting child that, when it
reads its clock, nothing fed so far names a key that has expired since the fork; `Limits` proves that late reading is
safe for all commands only if no key has. A restart asks, for `Loose`, that the next load is no earlier, and for
`Exact`, that the log it finds has no time to live logged as it came.

What a command does is defined once, in `Commands.Exec`, and used by the live server, by the loader and as the
contract of the mutable databases. What is trusted of the operating system: a successful write stores a prefix of what
it was given, a rename is atomic and outlives a crash, a crash leaves a first part of a file, the child's last read of
the pipe takes all that is in it, and the clock never goes back while the server is up, neither within a command nor
from one step to the next. After a crash it may read anything.

## What the proofs brought to light

- SET with EX or PX is logged as it came, so its time to live starts again with every load
  (`Limits.SetWithExDrifts`), although the comment on the rewriting of expires says that replayed times are absolute.
- EXPIRE, PEXPIRE, SETEX and PSETEX read the clock a second time for the log, so the logged time can be later than the
  stored one (`Limits.ExpireSurvives`).
- The child of a rewrite reads its clock after the fork. A key that expires in between is left out of the dump, and a
  command of the parent that had extended its life is replayed on nothing (`Limits.LostExtension`).
- PERSIST does not expire its key first, so it can revive a key that the log no longer has (`Limits.CommandInRun`).
- When turning the log on fails, the server keeps the number of a closed file descriptor
  (`AofServers.AofServer.StartAppendOnly`); a fork that fails leaves its pipes open.
- Deleting the keys of a slot hands nothing to the log (`Databases.RedisDb.DelKeysInSlot`): a load brings back every key
  of the slot that the log has (`Limits.SlotDeletion`).
- BITPOS for a clear bit answers 0 for a missing key and -1 for an empty string (`Bitpos.BitPosCommand`); the comment in
  BITCOUNT that an end is never negative is wrong for the empty string, harmlessly.
- The header of crc64.c contradicts itself: its first line says an initial value of 0, its list of parameters one of
  all ones. The check value belongs to 0 and not to all ones (`Crc64s.CheckValue`); the callers use 0.

## Model

| member | source | states |
|---|---|---|
| `Wire.CatAppendOnlyGenericCommand` | SourceCode/Backend/redis-3.0.3/src/aof.c:435-458 | The command printer, a loop over the arguments, appends exactly the counted-bulk encoding of the command. |
| `Wire.StrtollOfDecimal` | SourceCode/Backend/redis-3.0.3/src/aof.c:640-660 | A number printed in a header or as an argument is read back as itself, whatever non-digit follows. |
| `Wire.RoundTrip` | SourceCode/Backend/redis-3.0.3/src/aof.c:435-458 | For every argument vector with arbitrary bytes, the reader of the loader gets that vector back from its printed form and stops exactly at what follows: concatenated commands decode in one way only. |
| `Wire.TornCommandIsShort` | SourceCode/Backend/redis-3.0.3/src/aof.c:638-671 | A proper non-empty prefix of a printed command is always found too short, never malformed: a torn write cannot reach the format error. |
| `Wire.StrangeStart` | SourceCode/Backend/redis-3.0.3/src/aof.c:645-645 | Text that does not start with an asterisk is a format error. |
| `Wire.StrangeCount` | SourceCode/Backend/redis-3.0.3/src/aof.c:646-648 | A header whose count is not positive is a format error, whatever follows. |
| `Wire.StrangeArgument` | SourceCode/Backend/redis-3.0.3/src/aof.c:654-660 | Behind any number of good arguments, one that does not start with a dollar sign is a format error. |
| `Wire.StrangeLength` | SourceCode/Backend/redis-3.0.3/src/aof.c:661-663 | Behind any number of good arguments, a negative length ends the reading: it is a huge one when taken as unsigned. |
| `Log.SelectLiteral` | SourceCode/Backend/redis-3.0.3/src/aof.c:503-510 | The SELECT that is printed as a literal format string is the printed form of the command SELECT. |
| `Log.LoadAppendOnlyFile` | SourceCode/Backend/redis-3.0.3/src/aof.c:599-748 | The loading loop, with its empty-file, short-file, bad-file and truncation outcomes, does to any bytes what the recursive reader says. |
| `Log.LoadWholeLog` | SourceCode/Backend/redis-3.0.3/src/aof.c:599-707 | A file that holds a whole log loads without complaint, runs exactly its commands in order, and is not changed. |
| `Log.LoadWithTail` | SourceCode/Backend/redis-3.0.3/src/aof.c:713-748 | What follows a log in a file decides the end of its loading: a format error, an argument that cannot be read or an unknown command ends the process under all flags; a torn command is cut off if that is allowed and succeeds, and ends the process otherwise. |
| `Log.GarbageIsRefused` | SourceCode/Backend/redis-3.0.3/src/aof.c:645-645 | A file that goes on behind its last command with anything but an asterisk is never loaded. |
| `Log.UnknownIsRefused` | SourceCode/Backend/redis-3.0.3/src/aof.c:677-682 | An unknown command ends the process, wherever it stands and whatever follows. |
| `Log.WholeCommandsIsMost` | SourceCode/Backend/redis-3.0.3/src/aof.c:695-700 | The number of commands kept from a cut file is the one number of commands that fit while one more does not. |
| `Log.CrashRecovery` | SourceCode/Backend/redis-3.0.3/src/aof.c:713-740 | Every prefix of a log loads with aof-load-truncated: exactly the commands wholly inside it are run, and the file is cut behind the last of them. |
| `Log.RepairedFileIsClean` | SourceCode/Backend/redis-3.0.3/src/aof.c:713-740 | The repaired file needs no second repair: it loads to the same dataset and stays as it is, also without aof-load-truncated. |
| `Commands.NameOfSpelling` | SourceCode/Backend/redis-3.0.3/src/redis.c:2135-2150 | Every command name of the table is recognised as itself by the case-insensitive lookup. |
| `Commands.CaseIsIgnored` | SourceCode/Backend/redis-3.0.3/src/redis.c:440-447 | The letters of a command name in any mixture of cases are recognised. |
| `Commands.OtherSpellings` | SourceCode/Backend/redis-3.0.3/src/redis.c:1983-1985 | Nothing but the spellings of the table is a command. |
| `Keyspace.ParseIntegerOfDecimal` | SourceCode/Backend/redis-3.0.3/src/object.c:622-653 | An integer argument that was printed in decimal is accepted and means that integer. |
| `Keyspace.NumberAndMore` | SourceCode/Backend/redis-3.0.3/src/object.c:622-653 | A number followed by anything but a NUL byte is refused. |
| `Keyspace.NoNumber` | SourceCode/Backend/redis-3.0.3/src/object.c:622-653 | So is text that starts neither as a number nor with a NUL byte. |
| `Coverage.SetOptionsInTurn` | SourceCode/Backend/redis-3.0.3/src/t_string.c:94-133 | The option loop of SET takes one option after the other and refuses unknown words and times without their argument. |
| `Coverage.ReadTimeRefused` | SourceCode/Backend/redis-3.0.3/src/db.c:873-882 | The expire commands refuse a time that is not an integer before they look at the key. |
| `Coverage.ReadNumberRefused` | SourceCode/Backend/redis-3.0.3/src/t_string.c:65-78 | So do SETEX, PSETEX, MOVE and SELECT with theirs. |
| `Coverage.SelectOnChange` | SourceCode/Backend/redis-3.0.3/src/aof.c:497-510 | A SELECT is printed exactly when the database of a command is not the one the log has selected; the rest is the translation of the command. |
| `Meanings.GetMeans` | SourceCode/Backend/redis-3.0.3/src/db.c:826-860 | A lookup leaves all other keys alone, and its own unless its time is over on a master that is not loading; then the key goes and the log gets its DEL. |
| `Meanings.SetMeans` | SourceCode/Backend/redis-3.0.3/src/t_string.c:65-91 | SET and its variants: the key has the new value and exactly the expire time asked for, every other key stays, and the command is logged; one refused by NX or XX changes nothing but an expired key. |
| `Meanings.ExpireMeans` | SourceCode/Backend/redis-3.0.3/src/db.c:873-917 | On a key that is there, a time that is over deletes exactly that key and the log gets a DEL; any other is stored with the value unchanged and the command logged; a loader or a slave stores either. |
| `Meanings.ExpireOfNothing` | SourceCode/Backend/redis-3.0.3/src/db.c:884-888 | On any other key the expire commands do what a lookup does. |
| `Meanings.PersistMeans` | SourceCode/Backend/redis-3.0.3/src/db.c:965-979 | PERSIST removes an expire time, over or not, and nothing else, and is logged if there was one. |
| `Meanings.RenameMeans` | SourceCode/Backend/redis-3.0.3/src/db.c:667-703 | RENAME and RENAMENX of a key that is there: the target takes over value and expire time, the source goes, every other key stays, and the command is logged last; RENAMENX onto a target that is there does nothing. |
| `Meanings.RenameOfNothing` | SourceCode/Backend/redis-3.0.3/src/db.c:672-679 | A rename to the same name does nothing; of a key that is not there, it does what a lookup does. |
| `Meanings.MoveMeans` | SourceCode/Backend/redis-3.0.3/src/db.c:713-764 | MOVE of a key that is there: where the name is free the value arrives without an expire time and the source goes; where it is not, nothing happens. |
| `Meanings.MoveOfNothing` | SourceCode/Backend/redis-3.0.3/src/db.c:737-748 | A move to the same database does nothing; of a key that is not there, it does what a lookup does. |
| `Meanings.DelMeans` | SourceCode/Backend/redis-3.0.3/src/db.c:280-294 | DEL removes exactly the listed keys; the log gets one DEL for each that had expired and no other, and the command itself, last, if and only if one of them was there. |
| `Meanings.FlushMeans` | SourceCode/Backend/redis-3.0.3/src/db.c:253-278 | FLUSHDB empties the selected database and no other and is logged if there was anything; FLUSHALL empties them all and is always logged. |
| `Meanings.AddMeans` | SourceCode/Backend/redis-3.0.3/src/t_zset.c:1179-1369 | The four adding commands: a value of another type stays; any other has the rows added and keeps its expire time; the command is logged if it counted a change. |
| `Meanings.ListAndSetGrow` | SourceCode/Backend/redis-3.0.3/src/t_list.c:295-327 | RPUSH appends all elements in their order, SADD adds them all, and nothing is lost. |
| `Meanings.ScoresAreSet` | SourceCode/Backend/redis-3.0.3/src/t_zset.c:1179-1369 | ZADD: every member named has the score of the last pair about it, new or not, and the others keep theirs. |
| `Meanings.FieldsAreSet` | SourceCode/Backend/redis-3.0.3/src/t_hash.c:495-514 | HMSET: every field named has the value of the last pair about it, new or not, and the others keep theirs. |
| `Meanings.ChangesCounted` | SourceCode/Backend/redis-3.0.3/src/t_set.c:250-272 | RPUSH and HMSET always count a change, SADD exactly for a new element, ZADD exactly for a new member or another score. |
| `Keyspace.UnchangedRows` | SourceCode/Backend/redis-3.0.3/src/t_set.c:250-272 | A collection command that counts no change has changed nothing, so leaving it out of the log loses nothing. |
| `Keyspace.AddedIsNotEmpty` | SourceCode/Backend/redis-3.0.3/src/t_hash.c:495-514 | A collection that something was added to is not empty, so no empty collection is ever left behind. |
| `Coverage.ExactCoverIsSameLiveData` | SourceCode/Backend/redis-3.0.3/src/db.c:826-860 | If a log stands exactly for a dataset, the loaded and the live dataset agree on every key that has not expired, now and at any later time. |
| `Coverage.TranslateReadable` | SourceCode/Backend/redis-3.0.3/src/aof.c:512-529 | Whatever is fed is printed as commands the loader knows, and none of them changes the selected database. |
| `Coverage.FeedOneReplays` | SourceCode/Backend/redis-3.0.3/src/aof.c:497-529 | SELECT tracking: whatever database the log had selected, a fed command is replayed in the database it ran in, and the remembered selection is the reader's. |
| `Coverage.FeedAllReplays` | SourceCode/Backend/redis-3.0.3/src/aof.c:497-545 | Over any sequence of fed commands, each is replayed in the database it ran in, and the remembered selection stays the reader's. |
| `Durability.LookupTracks` | SourceCode/Backend/redis-3.0.3/src/db.c:826-860 | A lookup that deletes an expired key and logs its DEL keeps log and dataset together. |
| `Durability.ReplaySet` | SourceCode/Backend/redis-3.0.3/src/aof.c:512-529 | What SET, SETNX, SETEX and PSETEX leave when replayed: the same value, and an expire time that is absolute for SETEX and PSETEX but counted from the load for SET with EX or PX. |
| `Durability.ReplayExpire` | SourceCode/Backend/redis-3.0.3/src/aof.c:467-495 | What the expire commands leave when replayed: the absolute time that was printed, counted from the clock reading of the printing. |
| `Durability.DelKeysRemoves` | SourceCode/Backend/redis-3.0.3/src/db.c:280-294 | DEL of any list of keys, repeated or missing ones included, removes exactly the listed keys, whether or not lookups expire them first. |
| `Durability.DelKeysLogs` | SourceCode/Backend/redis-3.0.3/src/db.c:280-294 | The DELs logged for the keys that DEL finds expired remove just these keys from the replayed dataset. |
| `Durability.DelTracks` | SourceCode/Backend/redis-3.0.3/src/db.c:280-294 | DEL of any list of keys, with the DELs of expired ones logged before its own, keeps log and dataset together. |
| `Durability.ExpireTracks` | SourceCode/Backend/redis-3.0.3/src/db.c:873-917 | EXPIRE and its variants keep log and dataset together on every branch: no key, a time in the past logged as DEL, a time in the future. |
| `Durability.SetTracks` | SourceCode/Backend/redis-3.0.3/src/t_string.c:65-91 | SET with every combination of NX, XX and a time to live keeps log and dataset together. |
| `Durability.AddTracks` | SourceCode/Backend/redis-3.0.3/src/t_zset.c:1179-1369 | RPUSH, SADD, ZADD and HMSET keep log and dataset together, including wrong types, new keys and commands that change nothing. |
| `Durability.RenameTracks` | SourceCode/Backend/redis-3.0.3/src/db.c:667-703 | RENAME and RENAMENX keep log and dataset together, including expired sources and targets. |
| `Durability.MoveTracks` | SourceCode/Backend/redis-3.0.3/src/db.c:713-764 | MOVE keeps log and dataset together although the expire time does not move. |
| `Durability.FlushTracks` | SourceCode/Backend/redis-3.0.3/src/db.c:253-278 | FLUSHDB and FLUSHALL keep log and dataset together. |
| `Durability.ExecTracks` | SourceCode/Backend/redis-3.0.3/src/db.c:826-917 | The central step: any of the modelled commands run by a master, and what it logs run by a loader at any time, keep a log that stands for the dataset standing for it; a PERSIST that revives what the log has lost is excluded, and for exactness an expire time that such a load sets to another. |
| `Dump.ReadChunk` | SourceCode/Backend/redis-3.0.3/src/aof.c:770-997 | Every RPUSH, SADD, ZADD and HMSET of a rewrite has the argument count its header says and is read as the addition of exactly its rows. |
| `Dump.EnumerationRebuilds` | SourceCode/Backend/redis-3.0.3/src/aof.c:770-997 | Adding the elements of a non-empty list, set, sorted set or hash, in the order an iteration meets them, rebuilds it, list order included. |
| `Dump.RunChunks` | SourceCode/Backend/redis-3.0.3/src/aof.c:780-792 | Splitting the elements into commands of at most K, for every K of at least 1, adds them all, once each and in order. |
| `Dump.ChunkSizes` | SourceCode/Backend/redis-3.0.3/src/aof.c:770-792 | The elements are cut in their order into commands of K each, the last having the rest. |
| `Dump.PlanExists` | SourceCode/Backend/redis-3.0.3/src/aof.c:1042-1110 | Every dataset can be iterated over: there is an order of its keys and of the elements of every collection as the rewrite meets them, so no statement about all rewrites is empty. |
| `Dump.DumpRebuilds` | SourceCode/Backend/redis-3.0.3/src/aof.c:1042-1110 | Loading the rewritten commands gives the snapshot without the keys that had expired when the child read its clock, in any database and whatever the load time. |
| `Rewrite.RewriteCollection` | SourceCode/Backend/redis-3.0.3/src/aof.c:770-823 | The element loop, which prints a header whenever a chunk starts, prints exactly the chunked commands. |
| `Rewrite.RewriteKey` | SourceCode/Backend/redis-3.0.3/src/aof.c:1062-1103 | One key: skipped if expired, otherwise its value commands and its PEXPIREAT. |
| `Rewrite.RewriteDb` | SourceCode/Backend/redis-3.0.3/src/aof.c:1045-1110 | The loop over one database prints its keys in iteration order, each as RewriteKey says. |
| `Rewrite.RewriteAppendOnlyFile` | SourceCode/Backend/redis-3.0.3/src/aof.c:1021-1112 | The dump of the whole dataset, with SELECT only in front of databases that have keys, is the printed form of the dump whose replay DumpRebuilds describes. |
| `RewriteBuffers.RewriteBuffer.FillLast` | SourceCode/Backend/redis-3.0.3/src/aof.c:128-141 | Filling the last block copies as many bytes as fit, in order, and returns that number. |
| `RewriteBuffers.Block.Drop` | SourceCode/Backend/redis-3.0.3/src/aof.c:109-115 | Sending part of a block moves the rest to its front, byte for byte. |
| `RewriteBuffers.RewriteBuffer.Append` | SourceCode/Backend/redis-3.0.3/src/aof.c:123-167 | The list of blocks, filled and extended as needed, holds the old bytes followed by the new ones, whatever their number. |
| `RewriteBuffers.RewriteBuffer.Size` | SourceCode/Backend/redis-3.0.3/src/aof.c:78-89 | The size is the number of bytes held. |
| `RewriteBuffers.RewriteBuffer.SendDiff` | SourceCode/Backend/redis-3.0.3/src/aof.c:94-120 | Whatever each write accepts, what went into the pipe followed by what is still held is what was held; the handler is removed only when nothing is held or sending was stopped. |
| `RewriteBuffers.RewriteBuffer.WriteAll` | SourceCode/Backend/redis-3.0.3/src/aof.c:172-192 | The final write reports success exactly when every block went out whole; the bytes written are then all bytes held, in order, and a prefix of them otherwise. |
| `AofServers.AofServer.constructor` | SourceCode/Backend/redis-3.0.3/src/redis.c:1824-1839 | The server starts with an empty list of blocks; its fields are one state of the protocol. |
| `AofServers.AofServer.PrintCommand` | SourceCode/Backend/redis-3.0.3/src/aof.c:512-529 | The branches of the feeding function print the translation of the command: PEXPIREAT for the relative and second-based expires, SET and PEXPIREAT for SETEX and PSETEX, the command itself otherwise. |
| `AofServers.AofServer.FeedAppendOnlyFile` | SourceCode/Backend/redis-3.0.3/src/aof.c:497-545 | Feeding updates the selection and appends the same bytes to the log buffer and, while a child runs, to the rewrite blocks: the FeedBytes step. |
| `AofServers.AofServer.WriteAndUndo` | SourceCode/Backend/redis-3.0.3/src/aof.c:310-372 | The write, the undo of a short one by ftruncate, and what happens when that fails. |
| `AofServers.AofServer.FlushAppendOnlyFile` | SourceCode/Backend/redis-3.0.3/src/aof.c:273-433 | A flush, put off or not, full, short or failed, with any fsync policy, is the Flush step. |
| `AofServers.AofServer.RewriteAppendOnlyFileBackground` | SourceCode/Backend/redis-3.0.3/src/aof.c:1269-1321 | Forking a rewrite child, or failing to, is the Fork step; the selection is forgotten only when it succeeds. |
| `AofServers.AofServer.StartAppendOnly` | SourceCode/Backend/redis-3.0.3/src/aof.c:235-252 | Turning the log on is the Start step; on failure the field that holds the descriptor keeps a closed one. |
| `AofServers.AofServer.StopAppendOnly` | SourceCode/Backend/redis-3.0.3/src/aof.c:206-231 | Turning the log off, with its last flush and the killing of the child, is the Stop step. |
| `AofServers.AofServer.ChildWriteDiffData` | SourceCode/Backend/redis-3.0.3/src/aof.c:94-120 | The write handler, on the fields of the server, is the SendDiff step for the number of bytes the pipe took. |
| `AofServers.AofServer.ChildPipeReadable` | SourceCode/Backend/redis-3.0.3/src/aof.c:1186-1207 | Hearing the child's stop request is the HearChild step. |
| `AofServers.AofServer.TakeRewrittenFile` | SourceCode/Backend/redis-3.0.3/src/aof.c:1370-1480 | Opening the temporary file, appending the remaining differences, renaming it and taking it over is the SwitchFile step. |
| `AofServers.AofServer.BackgroundRewriteDoneHandler` | SourceCode/Backend/redis-3.0.3/src/aof.c:1364-1506 | The end of a rewrite, however it went, is the Done step. |
| `Safety.WriteKeeps` | SourceCode/Backend/redis-3.0.3/src/aof.c:310-411 | Flush conservation: after any write, short, failed, undone or not, the file is a prefix of the printed log, file and buffer together are all of it, and the remembered size is the file's. |
| `Safety.ExecSane` | SourceCode/Backend/redis-3.0.3/src/db.c:826-917 | Every command keeps databases in range, collections non-empty and expire times non-negative. |
| `Safety.CommandKeeps` | SourceCode/Backend/redis-3.0.3/src/aof.c:497-545 | A command keeps the whole invariant, with and without a log and a child. |
| `Safety.FlushKeeps` | SourceCode/Backend/redis-3.0.3/src/aof.c:273-433 | A flush, however its write goes, keeps the invariant about bytes, log and child. |
| `Safety.StartKeeps` | SourceCode/Backend/redis-3.0.3/src/aof.c:235-252 | Turning the log on keeps it; the log only counts once the first rewrite has been switched in. |
| `Safety.StopKeeps` | SourceCode/Backend/redis-3.0.3/src/aof.c:206-231 | Turning the log off keeps it, a running child included. |
| `Safety.ForkKeeps` | SourceCode/Backend/redis-3.0.3/src/aof.c:1269-1321 | A fork keeps it: the new differences start with a SELECT because the selection was forgotten. |
| `Safety.RewrittenLogStands` | SourceCode/Backend/redis-3.0.3/src/aof.c:1386-1498 | The dump followed by every command fed since the fork stands for the current dataset. |
| `Safety.DoneKeeps` | SourceCode/Backend/redis-3.0.3/src/aof.c:1364-1506 | The end of a rewrite keeps the invariant, although a successful switch throws away the log buffer. |
| `Safety.StepKeeps` | SourceCode/Backend/redis-3.0.3/src/aof.c:206-1506 | Every step of parent and child keeps the invariant. |
| `Safety.RunKeeps` | SourceCode/Backend/redis-3.0.3/src/aof.c:206-1506 | Every run of steps, in any order and with any outcomes of the system calls, keeps the invariant. |
| `SparedKeys.ExecApart` | SourceCode/Backend/redis-3.0.3/src/db.c:810-917 | A command that does not name certain keys does the same with and without them, and leaves them alone or flushes them. |
| `SparedKeys.ReplaySpares` | SourceCode/Backend/redis-3.0.3/src/aof.c:638-707 | A log none of whose commands names certain keys, each in the database selected for it, loads alike with and without them, and changes nothing at them but by flushing. |
| `PlainLogs.ReplayDelays` | SourceCode/Backend/redis-3.0.3/src/aof.c:599-707 | Loading the same log later, into the same data or data that live longer, gives the same values under the same keys, and none of them expires earlier: expire times may only drift into the future. |
| `PlainLogs.ReplayNeedsNoClock` | SourceCode/Backend/redis-3.0.3/src/db.c:826-917 | Clock-independent replay: a log without relative times loads to the same values and the same absolute expire times at any two times, because loading neither expires nor deletes. |
| `PlainLogs.TranslatePlain` | SourceCode/Backend/redis-3.0.3/src/aof.c:467-529 | Translating a fed command takes the clock out of it; only the time to live of a SET with EX or PX stays relative. |
| `PlainLogs.ExecFedsPlain` | SourceCode/Backend/redis-3.0.3/src/db.c:810-917 | Everything a command feeds, the DELs of expired keys included, has absolute expire times, but for the times to live of SET with EX or PX that stored its value. |
| `PlainLogs.DumpFromPlain` | SourceCode/Backend/redis-3.0.3/src/aof.c:1042-1110 | Everything a rewrite prints can be replayed without a clock. |
| `PlainLogs.RunKeepsPlain` | SourceCode/Backend/redis-3.0.3/src/aof.c:206-1506 | Every run keeps its log, its dump and its differences plain, and an exact run keeps them free of times to live. |
| `Restart.LoadAfterCrash` | SourceCode/Backend/redis-3.0.3/src/aof.c:713-740 | Coming up from any first part of the file: the load succeeds, the dataset is that of the commands wholly in it, and the file becomes exactly their printed form. |
| `Restart.RestartKeeps` | SourceCode/Backend/redis-3.0.3/src/aof.c:599-740 | After a crash that left any first part of the file, unsynced bytes being lost as well as buffered ones, a server that comes back satisfies the whole invariant again, whatever the lifetime before did: exactly, at any time, if the log it finds has no time to live logged as it came, and up to drifting expire times if it is loaded again no earlier. |
| `Restart.HistoryKeeps` | SourceCode/Backend/redis-3.0.3/src/aof.c:206-1506 | The invariant holds after any number of lifetimes. |
| `Restart.ExactLivesAreSteady` | SourceCode/Backend/redis-3.0.3/src/aof.c:512-529 | Exact lifetimes leave a log that allows the next one to be exact. |
| `Restart.LogIsDurable` | SourceCode/Backend/redis-3.0.3/src/aof.c:206-1506 | The durability theorem, over any number of lifetimes, crashes and restarts: while the log is on, file and buffer load without complaint; and if, since the last restart, no PERSIST revived an expired key that the log, or the rewritten one in the making, had lost, and no child read its clock when what had been fed named a key expired since the fork, they give the dataset up to keys whose expire time has passed. Earlier lifetimes are not restricted. |
| `Restart.LogIsExact` | SourceCode/Backend/redis-3.0.3/src/aof.c:467-545 | If moreover no command since the last restart stores an expire time that a replay sets to another, and the log found then has no time to live logged as it came, the loaded data agree with the live data, at any load time. |
| `Restart.LogOutlivesCrashes` | SourceCode/Backend/redis-3.0.3/src/aof.c:599-740 | What a client sees of a crash: with nothing waiting to be written and the file left whole, the server comes back with the dataset it had, up to keys whose expire time had passed. |
| `Restart.FlushConserves` | SourceCode/Backend/redis-3.0.3/src/aof.c:273-433 | Flush conservation over any number of lifetimes, without conditions: the file followed by the buffer is the printed form of everything fed, the remembered size is the file's, and the file is a first part of it also when the server ended itself. |
| `Restart.FileSurvivesCrash` | SourceCode/Backend/redis-3.0.3/src/aof.c:713-740 | At any point of any number of lifetimes, whatever first part of the file a crash leaves loads with aof-load-truncated to exactly the commands wholly in it. |
| `Restart.RewriteConserves` | SourceCode/Backend/redis-3.0.3/src/aof.c:94-192 | Rewrite protocol conservation, in any lifetime and at every moment of it: the child's bytes, the pipe and the blocks are together the bytes fed since the fork, once and in order; nothing enters the pipe after the acknowledgement; waiting bytes have a handler until sending stops; no blocks without a child. |
| `Restart.SwitchConserves` | SourceCode/Backend/redis-3.0.3/src/aof.c:1386-1498 | The file switched in, in any lifetime, is the dump followed by every byte fed since the fork. |
| `Restart.SwitchRebuilds` | SourceCode/Backend/redis-3.0.3/src/aof.c:1386-1498 | In any lifetime and without conditions, the file switched in loads to what the commands fed since the fork make of the keys that had not expired when the child read its clock. |
| `Restart.RecoveredIs` | SourceCode/Backend/redis-3.0.3/src/aof.c:599-740 | The server that comes up has its log on, holding exactly the commands wholly in the bytes left, with nothing waiting, and the dataset they make. |
| `Restart.HistoryGoesOn` | SourceCode/Backend/redis-3.0.3/src/aof.c:599-740 | Whatever a history has led to while the log is on, a crash that leaves any first part of the file, and a restart at any time, continue it. |
| `Progress.StartedServer` | SourceCode/Backend/redis-3.0.3/src/redis.c:1864-1873 | A server that has just been started has its log off, or on and empty under its name. |
| `Progress.CommandFeeds` | SourceCode/Backend/redis-3.0.3/src/aof.c:497-545 | A command changes the dataset as it means; what it feeds goes to the end of the buffer while the log is on and to the end of the blocks while a child is there, and nothing else changes. |
| `Progress.FlushWrites` | SourceCode/Backend/redis-3.0.3/src/aof.c:310-411 | A flush that is not put off writes: a full write moves the whole buffer to the end of the file; a failed one, or a short one taken back, moves nothing; a short one not taken back moves exactly what was written; and anything but a full write ends the process under the policy always and is remembered under any other. |
| `Progress.FlushLeaves` | SourceCode/Backend/redis-3.0.3/src/aof.c:273-308 | A flush changes nothing else, and nothing at all if it is put off or has nothing to write. |
| `Progress.StartTurnsOn` | SourceCode/Backend/redis-3.0.3/src/aof.c:235-252 | Turning the log on: if everything goes well, the log is open under its name and waits for a child that has a copy of the dataset; otherwise it stays off. |
| `Progress.ForkCopies` | SourceCode/Backend/redis-3.0.3/src/aof.c:1269-1321 | A fork that goes well has a child with a copy of the current dataset and forgets the selection; one that does not changes neither. |
| `Progress.StopTurnsOff` | SourceCode/Backend/redis-3.0.3/src/aof.c:206-231 | Turning the log off writes what is waiting and, unless that ended the process, leaves the log off, without a file and without a child. |
| `Progress.SendMoves` | SourceCode/Backend/redis-3.0.3/src/aof.c:94-120 | The write handler moves exactly what the pipe takes from the front of the blocks to the end of the pipe, and goes when nothing is left or sending was stopped. |
| `Progress.ReceiveMoves` | SourceCode/Backend/redis-3.0.3/src/aof.c:1002-1015 | The child takes what it reads off the front of the pipe, behind what it has. |
| `Progress.ChildTurns` | SourceCode/Backend/redis-3.0.3/src/aof.c:1114-1207 | The turns of the handshake: the printed copy, the request, the answer that stops the sending, and the temporary file that holds the copy and every byte read. |
| `Progress.DoneSwitches` | SourceCode/Backend/redis-3.0.3/src/aof.c:1364-1506 | The end of a rewrite: if everything went well the rewritten file with the unsent bytes appended is the log, a waiting log is on, and an open one goes on there with an empty buffer; otherwise the log is what it was, and the rewrite is due again if the log still waits. |
| `Progress.WaitingEnds` | SourceCode/Backend/redis-3.0.3/src/aof.c:1476-1477 | Over every run without a stop: a log that waits for its first rewrite is on if and only if a rewrite has been switched in. |
| `Progress.RewriteCanFinish` | SourceCode/Backend/redis-3.0.3/src/aof.c:1021-1506 | From every state of every run with a child that has just been forked there is a way to the end of the rewrite, with the dump and every byte fed since the fork in place and a waiting log on. |
| `Progress.LogCanTurnOn` | SourceCode/Backend/redis-3.0.3/src/aof.c:235-252 | From every state of every run with the log off and no child there is a way to a log that is on and holds exactly the dump of the dataset. |
| `Limits.TtlSurvivesEveryLoad` | SourceCode/Backend/redis-3.0.3/src/aof.c:512-529 | SET, with NX or XX as well, SETEX and PSETEX, wherever they store their value, keep their expire time through every load if and only if the command is not a SET with EX or PX and the clock did not move before logging. |
| `Limits.SetWithExDrifts` | SourceCode/Backend/redis-3.0.3/src/aof.c:512-529 | SET k v EX 10, run at 0 and loaded at 1, expires late: the promise of identical expire times fails for it. |
| `Limits.ExpireSurvives` | SourceCode/Backend/redis-3.0.3/src/aof.c:467-495 | An expire command that stores a time is replayed with that time if and only if it is absolute or the clock did not move between its start and its logging. |
| `Limits.PersistExactly` | SourceCode/Backend/redis-3.0.3/src/db.c:965-979 | PERSIST keeps a log standing for the dataset if and only if its key has not expired or the log still has it: it is the one command that does not expire its key first. |
| `Limits.PersistIsSafe` | SourceCode/Backend/redis-3.0.3/src/db.c:965-979 | PERSIST keeps every log standing for the dataset if and only if its key has not expired. |
| `Limits.CommandExactly` | SourceCode/Backend/redis-3.0.3/src/db.c:810-979 | The exact condition for every command: a log that stood for the dataset still does, for a load at a given time, if and only if the command is no PERSIST that revives what the log has lost and, where expire times have to agree, stores none that such a load sets to another. |
| `Limits.TameExactly` | SourceCode/Backend/redis-3.0.3/src/db.c:810-979 | The same for all load times at once: the condition the durability theorems ask of a command is exactly the one that keeps the log right. |
| `Limits.CommandInRun` | SourceCode/Backend/redis-3.0.3/src/aof.c:497-545 | After any command at any point of any history, file and buffer load to the dataset if and only if that condition holds for the dataset and what a load just before would have given. |
| `Limits.SlotDeletion` | SourceCode/Backend/redis-3.0.3/src/db.c:1171-1189 | Deleting the keys of a slot, which is not logged, leaves the log standing for the dataset if and only if the log had none of these keys. |
| `Limits.ReadingLate` | SourceCode/Backend/redis-3.0.3/src/aof.c:1032-1073 | The child may read its clock after the fork, whatever command the parent runs first, if and only if no key of its copy expires in between. |
| `Limits.LostExtension` | SourceCode/Backend/redis-3.0.3/src/aof.c:1073-1073 | A key that expires in between and whose life the parent extends is missing from the rewritten log. |
| `Databases.RedisDb.constructor` | SourceCode/Backend/redis-3.0.3/src/redis.c:1808-1817 | A new database has two empty dictionaries and agrees with the empty slot index. |
| `Databases.RedisDb.DbAdd` | SourceCode/Backend/redis-3.0.3/src/db.c:93-100 | Adds the key to the dictionary and the index; the assertion that it is new is a precondition every caller meets. |
| `Databases.RedisDb.DbOverwrite` | SourceCode/Backend/redis-3.0.3/src/db.c:107-112 | Replaces the value of a key that exists and keeps its expire time. |
| `Databases.RedisDb.SetKey` | SourceCode/Backend/redis-3.0.3/src/db.c:120-129 | Whatever was there, expired or not, the key has the new value and no expire time. |
| `Databases.RedisDb.DbDelete` | SourceCode/Backend/redis-3.0.3/src/db.c:162-172 | Removes the key from both dictionaries and the index and says whether it was there. |
| `Databases.RedisDb.RemoveExpire` | SourceCode/Backend/redis-3.0.3/src/db.c:770-775 | Removes only the expire time. |
| `Databases.RedisDb.SetExpire` | SourceCode/Backend/redis-3.0.3/src/db.c:777-785 | Sets only the expire time. |
| `Databases.RedisDb.GetExpire` | SourceCode/Backend/redis-3.0.3/src/db.c:789-800 | -1 without an expire time; the assertion that a key with one is in the main dictionary cannot fire. |
| `Databases.RedisDb.ExpireIfNeeded` | SourceCode/Backend/redis-3.0.3/src/db.c:826-860 | Only a master that is not loading deletes, and logs the DEL first; a slave only says whether the key is past its time. |
| `Databases.RedisDb.SetGeneric` | SourceCode/Backend/redis-3.0.3/src/t_string.c:65-91 | SET on the dictionaries has the effect Commands gives it, for masters, slaves and while loading. |
| `Databases.RedisDb.Del` | SourceCode/Backend/redis-3.0.3/src/db.c:280-294 | The loop of DEL on the dictionaries. |
| `Databases.RedisDb.ExpireGeneric` | SourceCode/Backend/redis-3.0.3/src/db.c:873-917 | EXPIRE and variants on the dictionaries, with the rewriting of the command into a DEL. |
| `Databases.RedisDb.RenameGeneric` | SourceCode/Backend/redis-3.0.3/src/db.c:667-703 | RENAME and RENAMENX on the dictionaries. |
| `Databases.RedisDb.MoveTo` | SourceCode/Backend/redis-3.0.3/src/db.c:713-764 | MOVE between two databases. |
| `Databases.RedisDb.PersistKey` | SourceCode/Backend/redis-3.0.3/src/db.c:965-979 | PERSIST on the dictionaries: it changes something exactly when there is an expire time to remove. |
| `Databases.RedisDb.FlushDb` | SourceCode/Backend/redis-3.0.3/src/db.c:253-260 | FLUSHDB empties the dictionaries and the index and adds the number of removed keys to the changes. |
| `Databases.RedisDb.FlushAll` | SourceCode/Backend/redis-3.0.3/src/db.c:262-278 | FLUSHALL of the only database, as in cluster mode: emptied with the index, and one change more than the removed keys, so that it always counts as a change. |
| `Databases.RedisDb.AddGeneric` | SourceCode/Backend/redis-3.0.3/src/t_set.c:250-272 | The element loop that changes a collection in place has the effect of adding its rows and counts a change exactly when there is one. |
| `Databases.RedisDb.Call` | SourceCode/Backend/redis-3.0.3/src/redis.c:2044-2106 | Running any of the modelled commands on one database (in cluster mode, where MOVE is refused and FLUSHALL has one database to empty, any of them at all) moves dataset and log as the command's meaning says, and keeps both dictionaries and the slot index in agreement. |
| `Databases.RedisDb.Serve` | SourceCode/Backend/redis-3.0.3/src/redis.c:2044-2106 | Over any sequence of commands, of slots taken away, of emptying by a resynchronization, and of changes of role and of loading, the dictionaries and the slot index agree throughout, no assertion fires, and dataset and log end up as the meaning of the requests says. |
| `Databases.RedisDb.DelKeysInSlot` | SourceCode/Backend/redis-3.0.3/src/db.c:1171-1189 | The walk that deletes the nodes it passes removes exactly the keys of the slot from both dictionaries and the index, terminates, and returns their number; the dataset loses exactly the keys that hash to the slot. |
| `Databases.RedisDb.Handle` | SourceCode/Backend/redis-3.0.3/src/redis.c:2044-2106 | One request, a command, an emptying, a lost slot, a change of role or of loading, does to the dictionaries, the log and the flags what it is for and nothing else. |
| `Databases.ServeOneMore` | SourceCode/Backend/redis-3.0.3/src/redis.c:2044-2106 | A run of requests is a shorter run and one request more. |
| `Slots.NamesTotal` | SourceCode/Backend/redis-3.0.3/src/object.c:474-504 | The byte-wise comparison of names is a strict total order. |
| `Slots.NameBeforeIs` | SourceCode/Backend/redis-3.0.3/src/object.c:474-504 | The first byte that differs decides, and a proper prefix comes first. |
| `Slots.IndexIsUnique` | SourceCode/Backend/redis-3.0.3/src/t_zset.c:110-164 | An ordered index is determined by its entries. |
| `Slots.ZslInsert` | SourceCode/Backend/redis-3.0.3/src/t_zset.c:110-164 | Inserting a new entry keeps the order and adds just that entry. |
| `Slots.ZslDelete` | SourceCode/Backend/redis-3.0.3/src/t_zset.c:188-210 | Deleting keeps the order and removes just that entry. |
| `Slots.SlotIsStretch` | SourceCode/Backend/redis-3.0.3/src/t_zset.c:239-286 | The entries of a slot are exactly those between the first and the last one in range. |
| `Slots.StretchCounts` | SourceCode/Backend/redis-3.0.3/src/db.c:1191-1218 | The length of that stretch is the number of keys of the database that hash to the slot. |
| `Slots.CountKeysInSlot` | SourceCode/Backend/redis-3.0.3/src/db.c:1191-1218 | Subtracting ranks gives the true number of keys in the slot. |
| `Slots.GetKeysInSlot` | SourceCode/Backend/redis-3.0.3/src/db.c:1153-1167 | Returns the smaller of count and the number of keys in the slot, all of them keys of the slot, each once and in order. |
| `Slots.NodeRemoved` | SourceCode/Backend/redis-3.0.3/src/db.c:1179-1187 | Deleting the current node puts the next one in its place, so the walk loses nothing. |
| `Crc64s.TableIsEightSteps` | SourceCode/Backend/redis-3.0.3/src/crc64.c:42-171 | Every one of the 256 table entries is its index divided by the polynomial for eight bits. |
| `Crc64s.StepLinear` | SourceCode/Backend/redis-3.0.3/src/crc64.c:42-171 | Bitwise division is linear over exclusive or. |
| `Crc64s.TurnDivides` | SourceCode/Backend/redis-3.0.3/src/crc64.c:176-179 | One turn of the loop is division by the eight bits of its byte, least significant first. |
| `Crc64s.Crc64` | SourceCode/Backend/redis-3.0.3/src/crc64.c:173-181 | The table-driven loop divides any message, from any starting register, bit by bit. |
| `Polynomials.DivisionStep` | SourceCode/Backend/redis-3.0.3/src/crc64.c:1-11 | Long division over the two-element field, one message bit at a time: if dividend and register differ by a multiple of the divisor, they do after the next bit. |
| `Crc64s.PolyCoefficients` | SourceCode/Backend/redis-3.0.3/src/crc64.c:6-7 | The constant of the loop is the polynomial 0xad93d23594c935a9 with its bits reversed, coefficient by coefficient. |
| `Crc64s.FeedDivides` | SourceCode/Backend/redis-3.0.3/src/crc64.c:176-179 | Feeding a bit to the register multiplies its polynomial by x and takes the divisor off if it overflows. |
| `Crc64s.ChecksumIsRemainder` | SourceCode/Backend/redis-3.0.3/src/crc64.c:1-11 | The checksum is the remainder: message polynomial times x^64, with the starting register carried in front, and the result differ by a multiple of the Jones polynomial, and the result has degree below 64. |
| `Crc64s.ChecksumSplit` | SourceCode/Backend/redis-3.0.3/src/crc64.c:173-181 | The checksum of a concatenation is the checksum of the second part started from that of the first. |
| `Crc64s.RegistersStayApart` | SourceCode/Backend/redis-3.0.3/src/crc64.c:173-181 | Different registers stay different over the same bytes. |
| `Crc64s.BurstDetected` | SourceCode/Backend/redis-3.0.3/src/crc64.c:173-181 | Damage confined to eight consecutive bytes, anywhere in any message, always changes the checksum. |
| `Crc64s.CheckValue` | SourceCode/Backend/redis-3.0.3/src/crc64.c:11-11 | The check value of the header is the checksum of its text from register 0, the initial value of the header's first line; the register of all ones that its list of parameters names gives another one. |
| `Crc16s.TableIsEightSteps` | SourceCode/Backend/redis-3.0.3/src/crc16.c:47-80 | Every one of the 256 table entries is its index divided by the polynomial for eight bits, most significant first. |
| `Crc16s.TurnDivides` | SourceCode/Backend/redis-3.0.3/src/crc16.c:85-86 | One turn of the loop is division by the eight bits of its byte. |
| `Crc16s.Crc16` | SourceCode/Backend/redis-3.0.3/src/crc16.c:82-88 | The table-driven loop divides any message bit by bit. |
| `Crc16s.PolyCoefficients` | SourceCode/Backend/redis-3.0.3/src/crc16.c:39-39 | The constant of the loop is x^16 + x^12 + x^5 + 1, coefficient by coefficient. |
| `Crc16s.ChecksumIsRemainder` | SourceCode/Backend/redis-3.0.3/src/crc16.c:32-45 | The checksum is the remainder of the message polynomial times x^16 by that polynomial. |
| `Crc16s.ChecksumSplit` | SourceCode/Backend/redis-3.0.3/src/crc16.c:82-88 | Checksums can be taken piece by piece. |
| `Crc16s.CheckValue` | SourceCode/Backend/redis-3.0.3/src/crc16.c:44-44 | The check value of the header. |
| `Crc16s.SlotInRange` | SourceCode/Backend/redis-3.0.3/src/cluster.c:614-615 | Every key has one of 16384 slots. |
| `Crc16s.TaggedKeysShareSlot` | SourceCode/Backend/redis-3.0.3/src/cluster.c:617-619 | Keys with the same non-empty tag in braces live in the same slot. |
| `Crc16s.UntaggedIsWhole` | SourceCode/Backend/redis-3.0.3/src/cluster.c:621-633 | A key without an opening brace, without a closing one behind the first opening one, or with nothing between the two is hashed as a whole. |
| `Crc16s.Low14IsRemainder` | SourceCode/Backend/redis-3.0.3/src/cluster.c:639-639 | The mask takes the remainder of the checksum by the number of slots. |
| `Crc16s.KeyHashSlot` | SourceCode/Backend/redis-3.0.3/src/cluster.c:620-639 | The two scanning loops hash what lies between the first opening brace and the first closing brace after it, and the whole key if that is missing or empty. |
| `Bits.CountIsPositions` | SourceCode/Backend/redis-3.0.3/src/bitops.c:58-61 | Counting ones byte by byte gives the number of positions that hold a one. |
| `Bits.SetBit` | SourceCode/Backend/redis-3.0.3/src/bitops.c:212-258 | SETBIT changes that one bit of the zero-padded string and no other, answers the old bit, and refuses bad offsets and bits without a change. |
| `Bits.GetBit` | SourceCode/Backend/redis-3.0.3/src/bitops.c:261-285 | GETBIT reads that bit, 0 beyond the end. |
| `Bits.SettingMovesCount` | SourceCode/Backend/redis-3.0.3/src/bitops.c:245-258 | SETBIT moves the number of ones by exactly the difference of new and old bit. |
| `Popcount.TableCounts` | SourceCode/Backend/redis-3.0.3/src/bitops.c:65-65 | The 256-entry table is right for every byte. |
| `Popcount.FoldByLane` | SourceCode/Backend/redis-3.0.3/src/bitops.c:87-100 | Folding a 32-bit word counts each byte in its own lane: no lane borrows or carries. |
| `Popcount.GatherIsTotal` | SourceCode/Backend/redis-3.0.3/src/bitops.c:101-107 | The multiplication gathers four lanes of at most 56 without overflowing the top byte. |
| `Popcount.SevenWords` | SourceCode/Backend/redis-3.0.3/src/bitops.c:76-107 | Seven folded words, added and gathered, give the ones of their twenty-eight bytes. |
| `Popcount.RedisPopcount` | SourceCode/Backend/redis-3.0.3/src/bitops.c:61-113 | The number of ones, for every string, start address and byte order. |
| `Popcount.WindowPositions` | SourceCode/Backend/redis-3.0.3/src/bitops.c:502-510 | The ones of a byte range are the positions of the whole string that fall into it. |
| `Popcount.ClampMeans` | SourceCode/Backend/redis-3.0.3/src/bitops.c:482-500 | Starts and ends from the front stand for themselves, those from the back for their distance to it, and what lies outside moves to the nearest byte, but for a start beyond the end. |
| `Popcount.BitCount` | SourceCode/Backend/redis-3.0.3/src/bitops.c:462-513 | BITCOUNT with or without a range, negative ends included. |
| `Bitpos.SkipByBytes` | SourceCode/Backend/redis-3.0.3/src/bitops.c:149-156 | A word can be skipped exactly if each of its bytes can, in either byte order. |
| `Bitpos.ScanSees` | SourceCode/Backend/redis-3.0.3/src/bitops.c:164-172 | The scanning bit sees exactly the bits of the remaining bytes followed by zeros. |
| `Bitpos.SearchEnds` | SourceCode/Backend/redis-3.0.3/src/bitops.c:195-199 | The word a search ends in always holds the sought bit, unless a one is sought and none is left. |
| `Bitpos.BoundsMean` | SourceCode/Backend/redis-3.0.3/src/bitops.c:549-575 | Without a range all bytes are searched, with only a start all from there on. |
| `Bitpos.RedisBitpos` | SourceCode/Backend/redis-3.0.3/src/bitops.c:122-200 | The first position of the sought bit in the zero-padded string, -1 exactly when a one is sought and there is none; the panic is never reached. |
| `Bitpos.BitPos` | SourceCode/Backend/redis-3.0.3/src/bitops.c:549-599 | BITPOS of a string with its ranges: the first position inside the range, the first one past the string for a clear bit without an end, -1 for an empty range. |
| `Bitpos.BitPosCommand` | SourceCode/Backend/redis-3.0.3/src/bitops.c:516-542 | BITPOS of a key: a bad bit and a wrong type are refused, a missing key answers 0 for a clear bit and -1 for a set one, an empty string -1 for both. |
| `Bitop.ResultBits` | SourceCode/Backend/redis-3.0.3/src/bitops.c:415-430 | Every bit of a BITOP result is the operation on the bits of all zero-padded sources: all for AND, any for OR, an odd number for XOR, the complement for NOT. |
| `Bitop.WordOpIsByteOp` | SourceCode/Backend/redis-3.0.3/src/bitops.c:365-412 | An operation on 64-bit words is the operation on each of their bytes, in either byte order. |
| `Bitop.FastPath` | SourceCode/Backend/redis-3.0.3/src/bitops.c:352-413 | The four-words-at-a-time path, for any number of sources, leaves the fold of all of them in every byte it passes. |
| `Bitop.LookupSources` | SourceCode/Backend/redis-3.0.3/src/bitops.c:319-347 | The shortest and the longest length are right for every mixture of missing and present keys. |
| `Bitop.LengthsAreReached` | SourceCode/Backend/redis-3.0.3/src/bitops.c:319-347 | The shortest and the longest length are those of some source. |
| `Bitop.BitopCommand` | SourceCode/Backend/redis-3.0.3/src/bitops.c:288-459 | BITOP stores the padded fold of its sources whichever path computes it, deletes its target exactly when all sources are empty, and refuses wrong types and NOT of several keys. |
| `Bio.StepKeeps` | SourceCode/Backend/redis-3.0.3/src/bio.c:126-199 | Every step of every thread keeps the queue invariant. |
| `Bio.EachJobOnceInOrder` | SourceCode/Backend/redis-3.0.3/src/bio.c:126-199 | In every reachable state the executed jobs are the oldest created ones, in order and each once. |
| `Bio.ClientCanAdd` | SourceCode/Backend/redis-3.0.3/src/bio.c:126-138 | From idle, with the mutex free, a client can take all its steps; then what it asked for stands at the end of the queue as a new node, counted, and a waiting worker is woken. |
| `Bio.ClientCanRead` | SourceCode/Backend/redis-3.0.3/src/bio.c:193-199 | A client can read the counter, and that changes nothing. |
| `Bio.AskIsKept` | SourceCode/Backend/redis-3.0.3/src/bio.c:126-138 | What a client wants to add stays the same whatever the others do. |
| `Bio.FreeMeansCounted` | SourceCode/Backend/redis-3.0.3/src/bio.c:126-199 | Whenever the mutex is free the counter is the length of the queue, and a waiting worker has nothing to do: no wake-up is lost. |
| `Bio.ZeroMeansDone` | SourceCode/Backend/redis-3.0.3/src/bio.c:193-199 | A thread that reads 0 pending jobs knows that all jobs created before have been executed, and they stay so. |
| `Bio.ReadingIsUnfinished` | SourceCode/Backend/redis-3.0.3/src/bio.c:193-199 | A reading is the number of unfinished jobs, the one just executed but not yet unlinked counted in. |
| `Bio.WorkerCatchesUp` | SourceCode/Backend/redis-3.0.3/src/bio.c:140-190 | Left alone, the worker executes everything created before it waits again. |
| `Bio.QueueAlwaysEmpties` | SourceCode/Backend/redis-3.0.3/src/bio.c:140-190 | From every reachable state in which no client is inside its critical section, the worker alone executes all created jobs and then waits on an empty queue. |
| `Adlist.LinkedList.constructor` | SourceCode/Backend/redis-3.0.3/src/adlist.c:41-53 | A new list has no nodes and no methods. |
| `Adlist.LinkedList.AddNodeHead` | SourceCode/Backend/redis-3.0.3/src/adlist.c:80-98 | A new node in front; forward and backward chain stay mirror images and the length exact. |
| `Adlist.LinkedList.AddNodeTail` | SourceCode/Backend/redis-3.0.3/src/adlist.c:106-124 | A new node at the end. |
| `Adlist.LinkedList.InsertNode` | SourceCode/Backend/redis-3.0.3/src/adlist.c:126-153 | A new node right after or right before a given one, at the ends too. |
| `Adlist.LinkedList.DelNode` | SourceCode/Backend/redis-3.0.3/src/adlist.c:159-172 | Unlinks that node and no other. |
| `Adlist.LinkedList.Rotate` | SourceCode/Backend/redis-3.0.3/src/adlist.c:328-341 | The last node becomes the first; lists of up to one node stay. |
| `Adlist.LinkedList.Index` | SourceCode/Backend/redis-3.0.3/src/adlist.c:313-325 | The node at an index from either end, none if it is out of range. |
| `Adlist.LinkedList.SearchKey` | SourceCode/Backend/redis-3.0.3/src/adlist.c:285-306 | The first node that matches, by the match method or by value, none if there is none. |
| `Adlist.LinkedList.Duplicate` | SourceCode/Backend/redis-3.0.3/src/adlist.c:242-274 | New nodes with the copies of all values in order, or nothing when a value cannot be copied; the original is untouched. |
| `Adlist.ListIter.Next` | SourceCode/Backend/redis-3.0.3/src/adlist.c:221-232 | The node the iterator stands at, in either direction; it stays at the end. |
| `Adlist.IteratorSurvives` | SourceCode/Backend/redis-3.0.3/src/adlist.c:207-209 | Deleting the node just returned does not disturb the iterator. |
| `Adlist.VisitAndDelete` | SourceCode/Backend/redis-3.0.3/src/adlist.c:207-232 | A walk that deletes some of the nodes as they are returned returns every original node once, in order, and leaves exactly the others. |

## Left out

- `Log.LoadAppendOnlyFile`: fgets reads at most 127 bytes of a header line at a time; the printer never makes a header
  that long, and the model reads the whole line. A command with a wrong number of arguments in a loaded file counts as
  unknown; the source would run it on the wrong arguments. No log written by the server has either.
- `Commands.NameOfSpelling`: the command table of the model has 21 names.
- `Durability.ExecTracks`: speaks of these 21 commands, run by a master. A script sees a frozen clock and a slave expires
  nothing; `Databases` models the slave's side of expiry. Periodic expiry and eviction are GET and DEL commands to the
  log.
- `Commands.Exec`: all keys a command looks up are tested against one clock reading; the readings for the base of a
  relative time, for the lookups, for the test of a past time and for the log entry are separate.
- `Keyspace.ParseIntegerOfDecimal`: numbers outside 64 bits, which the source refuses, are not refused; expire times,
  sizes and lengths are unbounded outside the bit and checksum modules.
- `Durability.AddTracks`: scores are integers, and ZADD takes no options; floating point scores and their printing are
  not modelled.
- `Databases.RedisDb.AddGeneric`: the same.
- `Dump.EnumerationRebuilds`: the same; the digits printed for a floating point score are not modelled.
- MULTI and EXEC: a cut inside a transaction is a different promise, see `valid_up_to` in aof.c:695-700.
- `Restart.LogIsDurable`: above OnlyBytes, the lifetime since the last restart excludes a PERSIST that revives an expired
  key which the log, or the rewritten one in the making, has lost, which is exactly what breaks that log, and a child that reads its clock when something fed names
  a key expired since the fork, which breaks the rewritten log for some commands only; `Restart.SwitchRebuilds` says
  what that log holds in any case.
- `Restart.LogIsExact`: excludes the same, and commands that store an expire time which a replay sets to another.
- `Limits.ReadingLate`: necessity is over all commands the parent may run first, not for one given run.
- `Restart.Lives`: a crash while the log is off, or waiting for its first rewrite, is not followed by a restart.
- Deleting the keys of a slot and emptying the data for a resynchronization are no steps of `Protocol`: they are not
  logged, and `Limits.SlotDeletion` says when the log survives the first.
- When a flush is put off because of a running fsync, and for how long: the model lets any flush be put off but that of a
  stop.
- When a rewrite is started (sizes, percentages, another child running): the model lets it start at any time.
- The RDB snapshot, replication, latency sampling, logging, fsync timing and the contents of error messages.
- Object encodings, reference counts, shared objects and the freeing of memory, `listRelease` included.
- `Slots.ZslInsert`: the skip list is its sequence of entries; levels and spans are not modelled.
- `Slots.ZslDelete`: likewise.
- `Databases.RedisDb.Call`: outside cluster mode, MOVE is `MoveTo` on a pair of databases and FLUSHALL is this database's
  share of it; watched keys and keyspace notifications are not modelled.
- `Databases.RedisDb.Serve`: one database; outside cluster mode, requests that go to several databases, SELECT and MOVE
  between them, are only in `Commands`.
- `Bitop.BitopCommand`: the parsing of the operation name and the storing of the result under the target key.
- `Bio`: one queue; the queues of the other job types have their own mutex, condition and worker and do not interact.
  Killing the threads on a crash is not modelled.
- `Adlist.LinkedList.DelNode`: a deleted node keeps its links, where the source frees it.
- SCAN, KEYS, SORT, RANDOMKEY, TTL, TYPE and the extraction of keys from commands.
- The PHP application around the server: configuration and generated stubs without logic.
