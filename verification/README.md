# A verified model of espix

espix is a small Unix-like system for ESP32 boards. This project models the parts of it whose
correctness is hardest to see by reading, in Dafny, and proves what they are for. Each part is
modelled in the form the source has: loops over buffers and tables as methods with invariants,
file-scope state as classes, and the values they compute as functions the lemmas speak about.

`dafny verify dfyconfig.toml` checks everything.

| files | part of espix |
|---|---|
| Pbkdf2 | password hashing with resumed SHA-256 states, in batches that share the SHA peripheral |
| LibC, LineFile, PasswdCodec, GroupCodec | /etc/passwd and /etc/group: printing, splitting, reading back |
| Groups, Accounts, AccountEffects, AccountRuns | the account commands as a state machine on the records, what each does and when it refuses, and runs that go wrong |
| Login | setting a password and checking one, files and key derivation together |
| AccountTexts, AuthFiles | the same commands on the texts of the two files, the loops that run them, and the three caches |
| Umode, UmodeIpc, UmodeRuns | the trap entry and exit assembly of user mode, the cross-core call, and the machine of tasks they serve |
| AudioHazard, AudioConvert | the mixer's hazard pointer against closing streams, and exactly-once conversion |
| EditorText, EditorDoc, EditorBuffer, EditorFile | the line editor: flat text, line arrays, cursor and edits, load and save |
| BulkOnly | USB mass storage (Bulk-Only Transport 1.0, sections 5.3 and 6.7): the host's automaton against a device that may do anything it is allowed to |
| ChmodSpec, ChmodLetters | the mode language of chmod, and what its letters and digits mean |
| FstabGlob, MountTable | the fstab pattern matcher, and mount records with the partition views they own |
| CommentStrip | the scanner that blanks C comments |
| Collections | options, and two facts about sequences and sets |

## What does not hold of the code

Where a promise turned out to be kept only under a condition, the condition is proved to be exact:

- A bulk-only command begun in phase is not always back in phase once its status has been read:
  after a bus failure in the data stage the device may take the status read for more data
  (`BulkOnly.BusFailureLeavesCsw`). `BulkOnly.InPhaseExactly` gives the outcomes that assure it. The
  comment above the reissue says a short read is issued again in phase; `BulkOnly.ReissueExactly`
  says when.
- The account commands do not ask whether the file format can carry a name. The invariant of
  `Accounts.EveryRunKeepsInv` is about the records; what the files read as keeps it over runs that
  add names without colon, CR, newline or a leading # (`AccountTexts.EveryRunKeepsFiles`), and can lose it
  otherwise: `useradd x:!:0:0:/` leaves a second account of uid 0 (`AccountTexts.ColonNameBreaks`).
  Which names read back is exact in `AccountTexts.AddUserReadsBack`,
  `PasswdCodec.NewAccountReadsBack` and `GroupCodec.NewGroupReadsBack`.
- `usermod -G` reports success and leaves groups out. A list longer than 135 characters is cut
  first; of several groups of one name only the first is used, and `groupadd bob` and then
  `useradd bob` makes two (`Accounts.TwoGroupsOfOneName`); and a name with a comma enters its
  parts instead. `Groups.ExactlyTheNamed` is exact about all three; `AccountRuns.NinthGroupMissed`
  and `AccountRuns.CommaNameSplits` are runs of the commands that show the first and the last.
- When `accounts_refresh` finds no memory the name lookup answers from the list of before the last
  write and keeps that answer as valid (`AuthFiles.StaleNameSticks`, and a run of the code that gets
  there, `AuthFiles.StaleNameOfEspix`); the comment there says the list is then empty.
- A line that begins with CR is found by the lookup and skipped when the file is loaded, so such an
  account is there until the next write (`LineFile.CrLineIsFoundOnly`).
- The comment above `parse_id` calls the field strictly numeric. White space and signs get
  through, and a negative number wraps (`PasswdCodec.StrictUnlessDecorated`).
- mstatus.MPP does not agree with mcause.MPP at every exit. `espix_um_trap` leaves it at U while
  mcause says M, always; the exits that write mcause alone agree exactly when mstatus said U. Over
  runs that is every exit but `espix_um_trap`'s (`UmodeRuns.AgreesExactly`, `UmodeRuns.ExitsAgree`).
  What `mret` honours, mcause, is right at every exit.
- `fstab_glob` decides its pattern language except for patterns that end in two stars, where the
  shortest matching name is refused (`FstabGlob.GlobIsLanguage`).
- A newline typed when the line table is full loses the rest of the line, so the text survives
  only with the cursor at the end of the line (`EditorBuffer.NewlineAtLimitKeepsText`, and an editor
  it happens to, `EditorBuffer.NewlineLosesText`).
- The editor refuses a file of exactly the size limit it names; load and save undo each other
  exactly under the conditions of `EditorFile.SaveThenLoad` and `EditorFile.LoadThenSave`.
- Three error branches cannot be reached: the full id range (`Accounts.IdIsAlwaysFree`) and the two
  "no free mount slot" (`MountTable.Mounts.SlotAlwaysFree`).

## Model

| member | source | states |
|---|---|---|
| Pbkdf2.Pbkdf2Sha256 | components/espix_auth/auth.c:259-363 | for every compression function, password, salt, iteration count and interference with the SHA peripheral between batches, the derived block is T_1 of PBKDF2 (RFC 8018, section 5.2) over HMAC (RFC 2104, section 2); refused exactly for another output length, zero iterations or a salt that does not leave room for the padding |
| Pbkdf2.ResumedHash | components/espix_auth/auth.c:228-252 | continuing from the state after one key pad and compressing one padded tail is SHA-256 of pad and tail together, padded as section 5.1.1 of FIPS 180-4 says |
| Pbkdf2.ResumedHmac | components/espix_auth/auth.c:309-323 | the two states kept after the key pads give, for every message that fits one block, the HMAC of that message under the key |
| Pbkdf2.TailBlockBytes | components/espix_auth/auth.c:228-239 | what a final block holds: the tail, 0x80, zeros, and eight bytes whose value, read big-endian, is the number of bits of the pad and the tail together |
| Pbkdf2.BigEndianValue | components/espix_auth/auth.c:235-238 | the big-endian bytes of a number spell that number, for any number of bytes it fits in |
| Pbkdf2.FinalBlock | components/espix_auth/auth.c:228-239 | shifting the count out byte by byte from the end, the buffer becomes that block whatever it held before |
| Pbkdf2.KeyPads | components/espix_auth/auth.c:273-295 | the two blocks are the HMAC pads of the key, a key longer than a block being hashed first |
| Pbkdf2.Prf | components/espix_auth/auth.c:339-342 | two resumed compressions give the HMAC of the tail |
| Pbkdf2.XorInto | components/espix_auth/auth.c:343-345 | the accumulator becomes its exclusive or with the new block |
| Pbkdf2.Batch | components/espix_auth/auth.c:336-347 | a run of iterations with the peripheral held advances both the last U and the accumulated T by that many iterations |
| Pbkdf2.Iterate | components/espix_auth/auth.c:328-350 | batches with the peripheral released in between, its contents lost, still add up to T_1 of all iterations |
| Pbkdf2.ShaEngine.Resume | components/espix_auth/auth.c:246-252 | the digest is the compression of the given state and block, and does not depend on what another user left in the peripheral |
| Pbkdf2.EqualCt | components/espix_auth/auth.c:419-426 | the accumulated difference is zero exactly when all bytes agree |
| Pbkdf2.Verify | components/espix_auth/auth.c:714-754 | a password is accepted exactly when the account handed in exists, is not locked and stores what the password derives to |
| Login.Verify | components/espix_auth/auth.c:714-754 | a password is accepted exactly when the first account of that name in the file text exists, is not locked and stores what the password derives to |
| Login.SetHash | components/espix_auth/auth.c:674-687 | the stored hash is what the password derives to under the fresh salt, in 20000 iterations; it fails exactly without randomness |
| Login.ChangeIsFound | components/espix_auth/auth.c:756-783 | after a password change that succeeds, the lookup by name in the files finds the account with exactly the new salt and hash, unlocked, and its ids and home as before; every other lookup answers as before |
| Login.ChangeAndLogin | components/espix_auth/auth.c:714-783 | passwd and then a login as they run: exactly the passwords that derive to the stored hash are accepted, the one just set among them; a failed change leaves the files as they were |
| Login.LockIsFound | components/espix_auth/auth.c:785-814 | after a lock no password opens the account |
| Login.NewAccountIsShut | components/espix_auth/auth.c:1488-1497 | no password opens an account useradd has just made |
| PasswdCodec.ToHex | components/espix_auth/auth.c:142-150 | the loop writes two lower-case digits a byte, high nibble first |
| PasswdCodec.FromHex | components/espix_auth/auth.c:152-167 | the pair-by-pair loop reads what the recursive reader reads, and fails where it fails |
| PasswdCodec.PairIsStrtoul | components/espix_auth/auth.c:157-164 | which two characters strtoul takes whole in base 16, and the byte they make: hex digits, and also a blank or a sign before one digit |
| PasswdCodec.HexReadsBack | components/espix_auth/auth.c:142-167 | reading back written hex yields the bytes |
| PasswdCodec.HashFieldReadsBack | components/espix_auth/auth.c:489-534 | the password field, locked or hashed, splits and decodes into what it was printed from |
| PasswdCodec.RecordReadsBack | components/espix_auth/auth.c:463-534 | printing a record and parsing the line yields the record, through both nested splits, the decimal ids and the hex codec |
| PasswdCodec.LockedLine | components/espix_auth/auth.c:4-13 | the layout of a line: name, field, uid, gid and home with colons between, on an account whose ids differ |
| PasswdCodec.PasswordField | components/espix_auth/auth.c:462-534 | the layout of the password field: tag, iterations, salt and hash in hex with dollar signs between |
| PasswdCodec.Copied | components/espix_auth/auth.c:474-515 | a name or home from the file is kept up to the longest prefix its buffer holds |
| PasswdCodec.LineFits | components/espix_auth/auth.c:518-534 | every printed line fits the buffer it is printed into and read with, with at most 217 characters |
| PasswdCodec.PasswdRoundTrip | components/espix_auth/auth.c:585-641 | storing any list of at most eight well-formed records and loading it back yields the list |
| PasswdCodec.NewAccountReadsBack | components/espix_auth/auth.c:463-641 | a new account appended to well-formed ones reads back with them if and only if its name has no colon and no newline and does not start with # or CR, and its home has no CR |
| PasswdCodec.ColonName | components/espix_auth/auth.c:463-534 | what a name with colons reads back as: the account whose name, ids and home the name spells out |
| PasswdCodec.LoadedNames | components/espix_auth/auth.c:463-515 | whatever the file holds, no name read from it has a colon or a newline |
| PasswdCodec.StrictUnlessDecorated | components/espix_auth/auth.c:448-460 | the id reader agrees with a strictly numeric reading of a field if and only if the field is not white space or a sign before a number that, wrapped at 32 bits, fits an id |
| PasswdCodec.NegativeIdWraps | components/espix_auth/auth.c:448-460 | the family of inputs where it does not: a minus sign before any of the last 65535 values of 32 bits reads as an id |
| LibC.StrtokField | components/espix_auth/auth.c:474-478 | a delimiter-free field followed by a delimiter comes off as a token and leaves what follows it |
| LibC.StrtoulPlain | components/espix_auth/auth.c:448-460 | a plain number within 32 bits is read whole with its value |
| LibC.DecimalReadsBack | components/espix_auth/auth.c:518-534 | the decimal text of a number is digits that read as the number |
| LibC.Fgets | components/espix_auth/auth.c:598-600 | the line and the rest make up the file, the line is not empty unless the file is, and it fits the buffer |
| LineFile.LoadAll | components/espix_auth/auth.c:585-616 | the buffered loop loads what the recursive reading of the file yields |
| LineFile.StoreAll | components/espix_auth/auth.c:618-641 | the loop writes the lines of the records one after another |
| LineFile.StoreThenLoad | components/espix_auth/auth.c:585-641 | for any record type whose lines read back one by one, a stored list that the table has room for loads back as itself |
| LineFile.LoadedAfter | components/espix_auth/auth.c:585-616 | reading on behind stored records yields those records and then what follows in the file, up to the size of the table |
| LineFile.FindLine | components/espix_auth/auth.c:536-571 | the loop of the lookup by name returns the first record of the file that has it, with its own rule of which lines to pass over |
| LineFile.FoundStored | components/espix_auth/auth.c:536-571 | in a stored file that is the first such record of the stored list |
| LineFile.CrLineIsFoundOnly | components/espix_auth/auth.c:536-616 | a line that begins with CR is found by the lookup and skipped by the load |
| GroupCodec.GroupReadsBack | components/espix_auth/auth.c:948-1009 | printing a group and parsing the line yields the group, an empty member list included |
| GroupCodec.GroupRoundTrip | components/espix_auth/auth.c:967-1009 | storing any list of at most twelve well-formed groups and loading it back yields the list |
| GroupCodec.NewGroupReadsBack | components/espix_auth/auth.c:948-1009 | a new group appended to well-formed ones reads back with them if and only if its name has no colon and no newline and does not start with # or CR |
| Groups.MemberOf | components/espix_auth/auth.c:1012-1030 | the walk finds a user exactly when one of the comma-separated names is theirs |
| Groups.RebuiltNames | components/espix_auth/auth.c:1318-1338 | the rebuilt list names everybody the old one named except the user, and nobody else |
| Groups.StripList | components/espix_auth/auth.c:1318-1338 | the rebuilding loop never fills its buffer, so nothing is cut off |
| Groups.MembershipStrip | components/espix_auth/auth.c:1309-1340 | in place, every group of the table loses the user and no other table entry changes |
| Groups.StrippedNames | components/espix_auth/auth.c:1309-1340 | afterwards the user is in no group and everybody else is where they were |
| Groups.TokensAreSegments | components/espix_auth/auth.c:1386-1390 | the names strtok takes from the list are its non-empty comma-separated names |
| Groups.AddAllExact | components/espix_auth/auth.c:1389-1413 | for every name: adding succeeds if and only if every group named is there and every list that grows has the room, and then each list is the old one with the user appended once if it was missing, or at every mention if the name has a comma |
| Groups.SetGroupsExact | components/espix_auth/auth.c:1358-1421 | for every name: after a successful call each list names whom it named before, without the user unless appending, and in exactly the groups asked for also every part of the user's name, which is the user alone if there is no comma; names and gids are unchanged |
| Groups.SetGroupsHolds | components/espix_auth/auth.c:1358-1421 | the user is in exactly the groups asked for, with the earlier ones when appending, if and only if the name has no comma or no group was asked for |
| Groups.JoinedParts | components/espix_auth/auth.c:1401-1406 | a name with commas enters each of its parts as a member of its own |
| Groups.ExactlyTheNamed | components/espix_auth/auth.c:1386-1399 | in replace mode the user is in exactly the groups whose names are listed, for every name and every list, if and only if the groups listed are those that are still listed where the list is cut and are the first of their name, and the name has no comma or none is listed |
| Groups.CutShort | components/espix_auth/auth.c:1386-1387 | a list of 135 characters hides everything behind it |
| Groups.SetGroupsSucceeds | components/espix_auth/auth.c:1358-1421 | when the call succeeds at all, for every name and list |
| Groups.AddToGroup | components/espix_auth/auth.c:1393-1412 | the search and the append in place do what one name asks, with its two errors |
| Groups.SetGroupsIn | components/espix_auth/auth.c:1382-1413 | the loops over the loaded table compute that outcome, or its first error |
| Accounts.NextFree | components/espix_auth/auth.c:1166-1205 | the id found is in range, used by neither file, and every lower one in range is used; none is found only when all are used |
| Accounts.IdIsAlwaysFree | components/espix_auth/auth.c:1173-1205 | with the sizes of the two tables an id is always found, among the first 29 of the range: the "range is full" error never comes |
| Accounts.StepKeepsInv | components/espix_auth/auth.c:1214-1586 | on the records in memory, before a file is read back: every command, whichever of its writes fail, keeps account names and uids unique, gid equal to uid, group gids unique, uid 0 present, the tables within their sizes, and no group on an account's gid but one of its name |
| Accounts.AddUserKeeps | components/espix_auth/auth.c:1456-1530 | useradd keeps all of that, on the records |
| Accounts.DelUserKeeps | components/espix_auth/auth.c:1532-1586 | userdel keeps all of that, though its two group writes may fail, on the records |
| Accounts.AddGroupKeeps | components/espix_auth/auth.c:1214-1259 | groupadd keeps all of that, on the records |
| Accounts.DelGroupKeeps | components/espix_auth/auth.c:1261-1294 | groupdel keeps all of that, on the records |
| Accounts.ChangePasswordKeeps | components/espix_auth/auth.c:756-783 | a password change keeps all of that, on the records |
| Accounts.LockUserKeeps | components/espix_auth/auth.c:785-814 | locking keeps all of that, on the records |
| Accounts.ChangeGroupsKeeps | components/espix_auth/auth.c:1358-1421 | a change of membership keeps all of that, on the records |
| AccountEffects.AddUserRefuses | components/espix_auth/auth.c:1456-1500 | the error of useradd in every case: bad name, name taken, table full, failed write; an error changes nothing |
| AccountEffects.AddUserDoes | components/espix_auth/auth.c:1456-1530 | a successful useradd appends one account, locked, without a hash, with the lowest id of its range that no uid or gid has as both its ids and the home of its kind, and if there is room its own group |
| AccountEffects.DelUserRefuses | components/espix_auth/auth.c:1532-1570 | the error of userdel in every case: no such account, uid 0, failed write; an error changes nothing |
| AccountEffects.DelUserDoes | components/espix_auth/auth.c:1548-1563 | a successful userdel takes away the accounts of that name and no other |
| AccountEffects.DelUserGroups | components/espix_auth/auth.c:1343-1356 | with both group writes done, no group of that name is left and no list names the user |
| AccountEffects.DelUserKeepsGroup | components/espix_auth/auth.c:1343-1356 | every other group stays, with its gid and everybody else in it |
| AccountEffects.AddGroupRefuses | components/espix_auth/auth.c:1214-1240 | the error of groupadd in every case; an error changes nothing |
| AccountEffects.AddGroupDoes | components/espix_auth/auth.c:1240-1259 | a successful groupadd appends one empty group with the lowest unused id of its range |
| AccountEffects.DelGroupDoes | components/espix_auth/auth.c:1261-1294 | groupdel takes away exactly the groups of that name, or reports that there is none |
| AccountEffects.PasswordRefused | components/espix_auth/auth.c:756-775 | the error of a password change in every case; an error changes nothing |
| AccountEffects.PasswordChanged | components/espix_auth/auth.c:689-709 | a successful change gives the first account of that name exactly the new salt and hash, 20000 iterations and no lock, and changes nothing else of it or of any other |
| AccountEffects.AccountLocked | components/espix_auth/auth.c:785-814 | after a successful lock the account is locked, and if it was open its hash, salt and iterations are zero; nothing else changes |
| AccountEffects.LockRefused | components/espix_auth/auth.c:785-814 | the error of a lock in every case; an error changes nothing |
| AccountEffects.MembershipDoes | components/espix_auth/auth.c:1358-1421 | a change of groups is all of it or none, for users there are |
| AccountEffects.KeepConcat | components/espix_auth/auth.c:1551-1562 | what a removal keeps it keeps in order, part by part |
| Accounts.EveryRunKeepsInv | components/espix_auth/auth.c:1682-1817 | from the seeded records, every run of commands keeps all of that, on the records |
| Accounts.StepKeepsAccount | components/espix_auth/auth.c:644-672 | no command changes an account's name, uid or home; only deleting it by name takes it away, and not when it is uid 0 |
| Accounts.RootStays | components/espix_auth/auth.c:1532-1545 | over every run the account of uid 0 stays, with its name and home |
| Accounts.EveryRunReadsBack | components/espix_auth/auth.c:574-641 | every state a run of commands with plain names reaches is what its two files read back as |
| Accounts.TwoGroupsOfOneName | components/espix_auth/auth.c:1214-1259 | group names are not kept unique: from the seeded records, groupadd bob and useradd bob leave two groups bob |
| AccountRuns.NinthGroupMissed | components/espix_auth/auth.c:1386-1413 | a run that shows it: with any nine names of 16 characters, groupadd of all nine and usermod -G esp into all nine report success, and esp is in the first eight only |
| AccountRuns.NineLongNames | components/espix_auth/auth.c:1386-1387 | there are nine such names |
| AccountRuns.CommaNameSplits | components/espix_auth/auth.c:1393-1412 | a run with a comma: useradd a,b and usermod -a -G sudo report success, and then a and b are in sudo and a,b is not |
| AccountTexts.StepTextRefines | components/espix_auth/auth.c:536-1586 | every command on the two file texts, each read it makes parsing the text of that moment, does to the files of any carried state what the command on the records does to the state, with the same error |
| AccountTexts.RunTextRefines | components/espix_auth/auth.c:536-1586 | the same over every run of commands that add names the format carries: the files are those of the records, and read back as them |
| AccountTexts.EveryRunKeepsFiles | components/espix_auth/auth.c:1682-1817 | from the seeded files, over every such run, what the two files read as keeps the whole invariant, and root stays uid 0 with home / |
| AccountTexts.AddUserReadsBack | components/espix_auth/auth.c:1456-1530 | after a useradd that reports success, the account file reads as the records it was written from if and only if the name is one the format carries and, unless it is a system account, has no CR |
| AccountTexts.ColonNameBreaks | components/espix_auth/auth.c:1456-1530 | the input that breaks the files: useradd of x:!:0:0:/ succeeds on the seeded files, and they then read as two accounts of uid 0 |
| AuthFiles.Compact | components/espix_auth/auth.c:1551-1562 | the in-place removal leaves exactly the kept entries, in order |
| AuthFiles.Auth.Find | components/espix_auth/auth.c:536-571 | the first record of the file text with that name |
| AuthFiles.Auth.NextFreeId | components/espix_auth/auth.c:1173-1205 | the nested loops find the lowest free id |
| AuthFiles.Auth.UpsertRecord | components/espix_auth/auth.c:644-672 | the file text becomes that of the list with the record of that name replaced, or appended if there is room |
| AuthFiles.Auth.UserAdd | components/espix_auth/auth.c:1456-1530 | the texts of both files become what the command on the texts makes of them, errors and failed writes included |
| AuthFiles.Auth.UserDel | components/espix_auth/auth.c:1532-1586 | the texts of both files become what the command on the texts makes of them, errors and failed writes included |
| AuthFiles.Auth.GroupAdd | components/espix_auth/auth.c:1214-1259 | the text of the group file becomes what the command on the texts makes of it, errors included |
| AuthFiles.Auth.GroupDel | components/espix_auth/auth.c:1261-1294 | the text of the group file becomes what the command on the texts makes of it, errors included |
| AuthFiles.Auth.MembershipPurge | components/espix_auth/auth.c:1343-1356 | the group file becomes that of the list with the user stripped from every group, or stays when the write fails |
| AuthFiles.Auth.SetPassword | components/espix_auth/auth.c:756-783 | as the command on the texts: only an existing account changes, and keeps its ids and home |
| AuthFiles.Auth.LockAccount | components/espix_auth/auth.c:785-814 | as the command on the texts: the hash goes with the lock, and a locked account is left as it is |
| AuthFiles.Auth.SetGroupsOf | components/espix_auth/auth.c:1358-1421 | all or nothing: any error leaves both files as they were |
| AuthFiles.Auth.StoreAccounts | components/espix_auth/auth.c:618-641 | the text is that of the records and all three caches are cleared; a failed write changes nothing |
| AuthFiles.Auth.StoreGroups | components/espix_auth/auth.c:993-1009 | the text is that of the groups and all three caches are cleared; a failed write changes nothing |
| AuthFiles.Auth.AccountsRefresh | components/espix_auth/auth.c:848-872 | afterwards the list is the file's accounts, or still the old list when there was no memory |
| AuthFiles.UsersAre | components/espix_auth/auth.c:848-872 | the cached list has each account's name, home, uid and gid |
| AuthFiles.Auth.NameForUid | components/espix_auth/auth.c:874-892 | the answer is that of a fresh scan of the file unless the refresh it needed had no memory, in which case it is that of the old list |
| AuthFiles.NameInIs | components/espix_auth/auth.c:874-892 | the name of a uid is that of the first account with it, and there is none exactly when no account has it |
| AuthFiles.Auth.GroupName | components/espix_auth/auth.c:1032-1065 | the answer is that of a fresh scan of the file, or none when neither cache nor memory is there |
| AuthFiles.GroupInIs | components/espix_auth/auth.c:1032-1065 | the name of a gid is that of the first group with it, and there is none exactly when no group has it |
| AuthFiles.StaleNameSticks | components/espix_auth/auth.c:848-892 | what goes wrong without memory: the old list's name is cached as valid and is given out again when memory is back |
| AuthFiles.StaleNameReached | components/espix_auth/auth.c:848-892 | a run of the code that gets there: look up esp, delete it, add bob in its uid, and the lookup without memory answers esp, as does the next with memory |
| AuthFiles.StaleNameOfEspix | components/espix_auth/auth.c:848-892 | that run on the files in the format espix writes |
| AuthFiles.Owner | components/espix_auth/auth.c:904-923 | the loop picks the account whose home contains the path, the longest home winning and the first of equals, or none if no home does |
| AuthFiles.WithinMeans | components/espix_fs/fs.c:313-326 | a path is within the root, the directory itself, or what follows it and a slash |
| AuthFiles.OwnerIsUnique | components/espix_auth/auth.c:894-903 | that description fits one account at most |
| AuthFiles.Auth.OwnerRule | components/espix_auth/auth.c:904-923 | the owner is picked from the refreshed list |
| AuthFiles.Auth.Serve | components/espix_auth/auth.c:119-136 | over any interleaving of commands and lookups the files are those of the commands on the texts, and every answer is the one a cache-free scan of them gives at that moment |
| Umode.UmEntry | tools/patch-umode.py:49-62 | from U-mode: onto the kernel stack with the user's sp kept above its top and every other register intact; from M-mode: nothing at all |
| Umode.SaveRegs | tools/patch-umode.py:106-122 | every register lands in its slot and nothing outside the frame is written |
| Umode.UmEntryFix | tools/patch-umode.py:65-88 | after it mscratch is 0, the frame holds the sp the trap came from and, for an interrupt, the privilege; kernel gp, tp and a bare satp after a trap from U-mode |
| Umode.FixedFrameSlots | tools/patch-umode.py:65-88 | which slots of the frame the fix changes, and to what |
| Umode.InterruptVector | tools/patch-umode.py:162-188 | the frame records every register including sp, the pc and the privilege of the interrupted code |
| Umode.ResumeStatus | tools/patch-umode.py:193-212 | mstatus.MPP and mcause.MPP both come from the frame's flag; to M-mode every other bit of both is the one handed in, to U-mode every bit outside MPP, MPIE, the FPU state and the interrupt level, with MPIE set, level 0 and the FPU on |
| Umode.InterruptResume | tools/patch-umode.py:190-237 | the task resumed gets every register of its own frame, at the privilege that frame recorded, with the two MPP fields equal and the other bits of mstatus and mcause kept as said there |
| Umode.InterruptsAfter | tools/patch-umode.py:190-212 | after mret interrupts are on exactly as the MPIE handed in says, and on in U-mode; the interrupt level is the one handed in, and 0 in U-mode |
| Umode.UmExitToUser | tools/patch-umode.py:91-96 | every register from the frame, sp and gp included, and mscratch is the stack top for the next trap |
| Umode.ExceptionEntry | tools/patch-umode.py:106-122 | the exception frame records every register, the pc and mstatus |
| Umode.ExceptionVector | tools/patch-umode.py:106-139 | an exception goes to task code exactly when it is no interrupt and came from U-mode |
| Umode.ExceptionExit | tools/patch-umode.py:141-160 | the way back to U-mode is taken exactly when the frame says U, and restores every register; mstatus.MPP then equals mcause.MPP if and only if it was U before |
| Umode.UmTrap | components/espix_proc/umode_entry.S:74-86 | the trap is left into task code on the same stack with the kernel's registers, the frame, the cause and the thread as arguments and no return address; mcause says M-mode, MPIE and level 0; mstatus is not rewritten, so its MPP agrees with mcause only if it said M |
| Umode.UmResume | components/espix_proc/umode_entry.S:93-137 | back to U-mode with every saved register, mscratch set for the next trap |
| Umode.UmEnter | components/espix_proc/umode_entry.S:14-62 | the first entry leaks no kernel register, and sets mscratch to a stack top 16 bytes below sp |
| Umode.UmReturn | components/espix_proc/umode.c:248-285 | table and kernel tp are the thread's and the FPU is on; callee-saved registers survive |
| Umode.MaskedExit | components/espix_proc/umode_entry.S:93-137 | an exit that masks interrupts and writes only mcause leaves the two MPP fields equal if and only if mstatus said U |
| UmodeRuns.StepKeepsInv | tools/patch-umode.py:43-238 | every step, the cross-core call at any point among them, keeps: mscratch and satp tell the privilege, each parked task's frame holds its context |
| UmodeRuns.MscratchTellsPrivilege | tools/patch-umode.py:43-97 | over every run, outside the entry and exit windows, mscratch is the running task's kernel stack top in U-mode and 0 in M-mode, with satp to match |
| UmodeRuns.AgreesExactly | docs/USER-MODE.md:107-108 | every exit's mcause.MPP is the privilege it goes to; mstatus.MPP is the same except never where an app's exception is left for task code, and from task code back to U-mode exactly when it said U |
| UmodeRuns.ExitsAgree | tools/patch-umode.py:190-212 | over every run that starts with mstatus.MPP at U outside a handler and whose task code leaves it alone, the two MPP fields are equal at every exit but the one into task code |
| UmodeRuns.ResumeRestores | tools/patch-umode.py:190-237 | a resumed task has exactly the registers, pc and privilege it was parked with |
| UmodeRuns.ResumedLevel | tools/patch-umode.py:190-237 | the same of every resume step of a run |
| UmodeRuns.ParkedContextStable | tools/patch-umode.py:162-237 | over every run, a parked task's context does not change until it is resumed |
| UmodeRuns.InterruptedTaskComesBack | tools/patch-umode.py:162-237 | over every run, with any number of switches in between, an interrupted task comes back with the same registers, pc, privilege, mscratch and satp |
| UmodeRuns.ExceptionRoundTrip | tools/patch-umode.py:106-160 | over every run, with any interrupts, switches, other tasks' exceptions and cross-core calls in between, an app that took an exception goes back to U-mode with every register, the pc, mscratch and satp, if its own kernel code left the saved registers alone |
| UmodeRuns.FrameStays | tools/patch-umode.py:106-237 | no step of the machine but the task's own code touches the registers an exception saved, whether the task is running or parked |
| UmodeRuns.FixupRestores | tools/patch-umode.py:106-160 | an app's exception that the vector answers itself gives it back every register, the pc and U-mode |
| UmodeRuns.CrossCallTransparent | tools/patch-umode.py:240-318 | wherever the other core's call comes, registers, pc, privilege, mscratch and satp are the same after it |
| UmodeRuns.CrossCallKeeps | tools/patch-umode.py:240-318 | and no parked task's frame is touched, not even that of the handler it interrupts |
| UmodeRuns.NestedInterruptTransparent | tools/patch-umode.py:162-237 | an interrupt taken inside a handler changes nothing the handler sees, its stack from sp up included, whatever the nested one does below |
| UmodeRuns.TakeInterrupt | tools/patch-umode.py:162-188 | the vector's code is an interrupt step of the machine |
| UmodeRuns.SwitchTo | tools/patch-umode.py:190-237 | the resume code is a resume step, whichever task the scheduler chose |
| UmodeRuns.TakeException | tools/patch-umode.py:106-139 | the exception vector and the trap stub are an exception step |
| UmodeRuns.AnswerException | tools/patch-umode.py:106-160 | the exception vector's entry and its own exit are that step |
| UmodeRuns.TakeCrossCall | tools/patch-umode.py:240-318 | the cross-core handler is a step of the machine in every reachable state |
| UmodeRuns.ReturnToApp | components/espix_proc/umode_entry.S:93-137 | the resume stub is the step back to the app |
| UmodeRuns.EnterApp | components/espix_proc/umode_entry.S:14-62 | the enter stub is the step into a new app |
| UmodeIpc.Entry | tools/patch-umode.py:246-276 | from U-mode: kernel stack, gp, tp and bare satp, the app's kept in memory; from M-mode: nothing |
| UmodeIpc.Exit | tools/patch-umode.py:278-317 | which way out is taken follows mscratch, and puts back what the entry kept |
| UmodeIpc.Handler | tools/patch-umode.py:240-318 | the whole handler, with any body, leaves every register, satp and mscratch as it found them, and the body runs with the kernel's gp and tp and bare satp |
| AudioHazard.StepKeepsInv | components/espix_audio/espix_audio.c:792-834 | every step of the mixer, the owners and stop requests keeps: what is in the table or being mixed is allocated |
| AudioHazard.NeverTouchesFreed | components/espix_audio/espix_audio.c:792-834 | in every interleaving no step touches a freed stream |
| AudioHazard.NoDoubleFree | components/espix_audio/espix_audio.c:1119-1131 | in every interleaving no stream is freed twice without being opened again in between |
| AudioHazard.MixerKeepsItsStream | components/espix_audio/espix_audio.c:1126-1131 | while the mixer is inside a stream that stream is not freed |
| AudioHazard.MixerNeverReturns | components/espix_audio/espix_audio.c:1117-1128 | a closer waits out one visit at most: once the mixer has left an unlinked stream it does not come back to it |
| AudioHazard.UnlinkedWhileMixing | components/espix_audio/espix_audio.c:1126-1128 | a run that shows the wait is needed |
| AudioConvert.ConvertAppend | components/espix_audio/espix_audio.c:1069-1083 | converting one more chunk goes on from the converter's state |
| AudioConvert.CutsDoNotMatter | components/espix_audio/espix_audio.c:1063-1067 | for a frame-by-frame converter the output depends on the accepted bytes alone, not on how they were cut |
| AudioConvert.Stream.OutputIsConversionOfInput | components/espix_audio/espix_audio.c:1037-1086 | for a converter that works frame by frame, bytes in the ring and the pending slice together are the conversion of exactly the accepted bytes |
| AudioConvert.Stream.Flush | components/espix_audio/espix_audio.c:1053-1061 | pending bytes are offered first and all of them, then what is left while the ring takes some; if any is left, that was the last offer; ring and pending together do not change |
| AudioConvert.Stream.Write | components/espix_audio/espix_audio.c:1016-1086 | what it reports is taken once and for good, in whole frames when converting; it takes nothing only when stopped, out of frames, without an answer from the converter or with pending bytes still in the way |
| AudioConvert.Stream.Feed | components/espix_audio/espix_audio.c:539-556 | the producer's loop gives every write all that is left, until nothing is or the writes run out, and delivers a prefix of its data, each byte once and in order |
| EditorText.SpliceLineIsSplice | components/espix_cmds/cmd_edit.c:458-492 | changing characters of one line is changing the flat text at the cursor's offset |
| EditorText.SplitIsNewline | components/espix_cmds/cmd_edit.c:494-525 | cutting a line in two is inserting a newline into the flat text |
| EditorText.JoinRemovesNewline | components/espix_cmds/cmd_edit.c:545-569 | joining two lines removes the newline between them and nothing else |
| EditorText.JoinUndoesSplit | components/espix_cmds/cmd_edit.c:494-570 | backspace at the start of a line undoes a newline |
| EditorText.SplitUndoesJoin | components/espix_cmds/cmd_edit.c:494-570 | a newline undoes a join |
| EditorBuffer.Editor.InsertChar | components/espix_cmds/cmd_edit.c:458-492 | the character goes into the flat text at the offset and the offset moves past it, or nothing changes when a limit refuses |
| EditorBuffer.Editor.InsertNewline | components/espix_cmds/cmd_edit.c:494-525 | a newline goes into the flat text at the offset; with the line table full the rest of the line is lost |
| EditorBuffer.NewlineAtLimitKeepsText | components/espix_cmds/cmd_edit.c:513-520 | with the line table full the text survives if and only if the cursor is at the end of its line, and otherwise exactly the rest of the line is gone |
| EditorBuffer.NewlineLosesText | components/espix_cmds/cmd_edit.c:494-525 | an editor on a full table with the cursor inside a line, whose newline makes the text shorter |
| EditorBuffer.Editor.Backspace | components/espix_cmds/cmd_edit.c:527-570 | the character before the offset goes, across lines too, or nothing changes at the start or when the joined line would be too long |
| EditorBuffer.Editor.Delete | components/espix_cmds/cmd_edit.c:572-609 | the character at the offset goes, across lines too, or nothing changes at the end or when the joined line would be too long |
| EditorBuffer.Editor.MoveLeft | components/espix_cmds/cmd_edit.c:806-823 | the offset goes down by one and stops at 0 |
| EditorBuffer.Editor.MoveRight | components/espix_cmds/cmd_edit.c:806-823 | the offset goes up by one and stops at the end |
| EditorBuffer.Editor.MoveVertical | components/espix_cmds/cmd_edit.c:800-804 | the row moves by the step and the column stays, or each comes to the nearest place there is |
| EditorBuffer.Editor.ClampCursor | components/espix_cmds/cmd_edit.c:431-449 | the cursor comes into bounds without moving a valid offset |
| EditorBuffer.ClampIsNearest | components/espix_cmds/cmd_edit.c:431-449 | a clamped value is the one value of the range nearest to it |
| EditorBuffer.Editor.CutLine | components/espix_cmds/cmd_edit.c:611-637 | the line goes to the cut buffer, the others stay, and the text keeps a line |
| EditorBuffer.Editor.Paste | components/espix_cmds/cmd_edit.c:639-649 | the cut text is inserted at the offset, all of it or up to where there is no room |
| EditorDoc.Document.Insert | components/espix_cmds/cmd_edit.c:156-189 | the array grows if it must, the lines from the place on move up one by one, and the line stands at its place; refused only when the table is full |
| EditorDoc.Document.Delete | components/espix_cmds/cmd_edit.c:191-199 | that line goes and the others move down one by one |
| EditorDoc.Document.Sum | components/espix_cmds/cmd_edit.c:126-134 | the loop adds up the lengths of all lines |
| EditorDoc.ShiftUp | components/espix_cmds/cmd_edit.c:172-175 | the overlapping move shifts the tail of the array up by one, in place, no entry overwritten before it is read |
| EditorDoc.ShiftDown | components/espix_cmds/cmd_edit.c:194-197 | the overlapping move shifts the tail of the array down by one, in place |
| EditorFile.ReadAll | components/espix_cmds/cmd_edit.c:239-277 | however the reads are cut, the whole file comes in if and only if it is smaller than the limit |
| EditorFile.ScanFindsLines | components/espix_cmds/cmd_edit.c:279-308 | the scan finds the lines of the file, each without its newline and one CR |
| EditorFile.SplitLines | components/espix_cmds/cmd_edit.c:279-308 | the loop yields those lines, or gives up exactly when there are too many |
| EditorFile.LoadFile | components/espix_cmds/cmd_edit.c:215-318 | the load is the lines of the file, an empty file one empty line, or a refusal by size or count |
| EditorFile.SaveFile | components/espix_cmds/cmd_edit.c:320-355 | every line is written followed by one newline, and the bytes are counted |
| EditorFile.SaveThenLoad | components/espix_cmds/cmd_edit.c:215-355 | a document reloads line for line if and only if it is below the size limit and no line ends in CR |
| EditorFile.LoadThenSave | components/espix_cmds/cmd_edit.c:215-355 | a loaded file is written back byte for byte if and only if it is not empty, ends in a newline and has no CR LF |
| EditorFile.FlatDeterminesLines | components/espix_cmds/cmd_edit.c:126-134 | two documents with the same flat text are the same |
| BulkOnly.BulkTransferIn | tools/patch-msc.py:607-645 | a short transfer is an error and leaves the buffer as it was; the event on the bus is what is reported |
| BulkOnly.DataStage | tools/patch-msc.py:815-825 | the pieces follow one another as the host's automaton says and fill the buffer in order; a short or stalled stage ends it |
| BulkOnly.StatusStage | tools/patch-msc.py:754-803 | the CSW at the first try, a second after a stall and its clear, or reset recovery, as the host's automaton says |
| BulkOnly.BotExecuteCommand | tools/patch-msc.py:754-803 | whatever the device does, the bus sees one whole command of the host's automaton; the error is told by its events (see HeardOfReport); success means the whole buffer came in order; the device is in phase afterwards whenever the outcome is one that assures it |
| BulkOnly.HeardOfReport | tools/patch-msc.py:776-801 | what is reported, by the events alone: with the CSW read, a transfer that broke off the data stage is a size error if it was short, a stall if stalled, a failure if failed, and otherwise the verdict on the CSW; without it, the failure of the status stage, whatever the data stage was |
| BulkOnly.EndsOnce | tools/patch-msc.py:815-825 | at most one transfer of a command breaks off its data stage |
| BulkOnly.JointStep | tools/patch-msc.py:754-825 | every event of a command keeps what its course tells of the state it began in |
| BulkOnly.TracksStep | tools/patch-msc.py:754-825 | every event of a command keeps where the device can be while the host is at that point, from any state it began in |
| BulkOnly.InPhaseExactly | tools/patch-msc.py:754-825 | a command begun with the way in not halted, a sending one in phase, is sure to end in phase, whatever the device did, if and only if its CSW was read at the second try, or at the first, whole or short, after a data stage that was no bus failure, or whole at the first after a bus failure in a data stage too short to be taken for a CSW |
| BulkOnly.BusFailureLeavesCsw | tools/patch-msc.py:754-825 | what goes wrong after a bus failure: a run where the status is reported as read and the device still holds it |
| BulkOnly.ScsiRead | tools/patch-msc.py:166-192 | a whole READ and, exactly after one that failed, a whole REQUEST SENSE; the error is REQUEST SENSE's own or else the READ's, each as its command reported it; success means the buffer is what the device sent for the READ |
| BulkOnly.ShortReadIsReported | tools/patch-msc.py:797-801 | a READ in which a transfer brought too few bytes, with a whole CSW and a REQUEST SENSE in order, is reported as a size error |
| BulkOnly.FailedSenseIsHeard | tools/patch-msc.py:187-190 | a REQUEST SENSE whose CSW did not come is what the caller hears of |
| BulkOnly.ReadWithReissue | tools/patch-msc.py:397-416 | READs in turn, each but the last reported short, the last not short unless it is the third; the error is the last one's, and the buffer of a success what the device sent for it |
| BulkOnly.ShortReadIsReissued | tools/patch-msc.py:405-413 | such a READ is followed by another unless it was the third |
| BulkOnly.ReissueExactly | tools/patch-msc.py:397-404 | after a READ begun in phase and its REQUEST SENSE the next command is sure to start in phase if and only if REQUEST SENSE ended in one of the ways that assure it, and at the second try if the READ had left a halt uncleared |
| BulkOnly.ReissueStartsInPhase | tools/patch-msc.py:397-404 | so a short READ begun in phase is issued again in phase when its REQUEST SENSE went well, or ended that way |
| BulkOnly.VerifyRead | tools/patch-msc.py:486-543 | rereads in turn, each but the last a success that differs from the value before it, at most four; the error is the last reread's own, or success if and only if it agrees with the value before it, or else the mismatch error; only success changes the buffer |
| BulkOnly.BlockLayer.Read | tools/patch-msc.py:486-545 | the read with its reissues, then a verification if and only if it succeeded, there are buffers and verifications are left; the error and the buffer are those of the last of the two, and a verification is counted even without buffers |
| ChmodSpec.ChmodParse | components/espix_cmds/cmd_fs.c:1077-1181 | the pointer walk accepts a spec exactly when the grammar does, with its error, and then yields that spec applied to the current mode |
| ChmodLetters.SymbolicBits | components/espix_cmds/cmd_fs.c:1106-1180 | for every list of clauses of class letters, an operator and permission letters, bit by bit and by its number: what + sets, - clears and = sets and replaces, clause after clause |
| ChmodLetters.ClauseBits | components/espix_cmds/cmd_fs.c:1110-1171 | in one clause bit b below 9 is meant exactly when the class letter at b / 3 of "ogu", or a, or no letter is there and the permission letter at b % 3 of "xwr" is; 9 with t, 10 and 11 with s and the group or the user |
| ChmodLetters.AcceptedIsLetters | components/espix_cmds/cmd_fs.c:1106-1180 | only such texts are accepted as symbolic specs |
| ChmodLetters.OctalSpec | components/espix_cmds/cmd_fs.c:1090-1104 | an accepted octal spec has exactly the bits its digits have, three a digit |
| ChmodLetters.OctalTaken | components/espix_cmds/cmd_fs.c:1090-1104 | a spec that starts with a digit is accepted exactly when it is all octal digits and at most 07777 |
| ChmodSpec.ParseOctal | components/espix_cmds/cmd_fs.c:1090-1104 | an octal spec is its value, and refused above 07777 |
| ChmodSpec.ParseClause | components/espix_cmds/cmd_fs.c:1110-1171 | one clause is taken off the text and applied |
| ChmodSpec.ParseSymbolic | components/espix_cmds/cmd_fs.c:1106-1180 | the loop over the clauses applies them in order |
| ChmodSpec.SpecIsMasked | components/espix_cmds/cmd_fs.c:1077-1181 | every accepted spec clears one mask and sets another, both determined by the spec alone |
| ChmodSpec.SpecIsIdempotent | components/espix_cmds/cmd_fs.c:1077-1181 | applying a spec twice is applying it once, and the result is within the twelve bits |
| ChmodSpec.LastClauseWins | components/espix_cmds/cmd_fs.c:1165-1171 | bit by bit, the last clause that speaks of a bit decides it |
| FstabGlob.Glob | components/espix_cmds/cmd_blk.c:1191-1213 | the pointer walk terminates with the answer of the recursive matcher |
| FstabGlob.GlobIsLanguage | components/espix_cmds/cmd_blk.c:1191-1213 | that answer decides the pattern's language for all names if and only if the pattern does not end in two stars |
| FstabGlob.MatchedIsAccepted | components/espix_cmds/cmd_blk.c:1191-1213 | every name of the language is accepted unless the pattern ends in two stars |
| FstabGlob.AcceptedIsMatched | components/espix_cmds/cmd_blk.c:1191-1213 | only names of the language are accepted, whatever the pattern |
| FstabGlob.AcceptedIsLong | components/espix_cmds/cmd_blk.c:1191-1213 | what goes wrong: with two stars at the end the shortest name of the language is refused |
| MountTable.Mounts.Mount | components/espix_cmds/cmd_blk.c:912-1018 | a mount happens exactly when path and device are unused and the layers below take it; then one free record owns the new view, otherwise nothing changes and no view is left over |
| MountTable.Mounts.FstabMount | components/espix_cmds/cmd_blk.c:1351-1436 | the same for fstab, which does not ask about the device; the record it needs after mounting is always there |
| MountTable.Mounts.SlotAlwaysFree | components/espix_cmds/cmd_blk.c:524-532 | the file system's table is smaller than the records', so a free record is left as long as it has room |
| MountTable.Mounts.Release | components/espix_cmds/cmd_blk.c:1057-1065 | a view is released only while it exists and no mount reads through it |
| MountTable.Mounts.UmountOne | components/espix_cmds/cmd_blk.c:1021-1068 | unmounts by path, else by device, exactly when the caller is the mounter or root and the file system lets go; a refusal changes nothing |
| MountTable.Mounts.DeviceGone | components/espix_cmds/cmd_blk.c:1118-1152 | exactly the records of the disk and its partitions go, except those the file system refuses to let go of |
| MountTable.Mounts.Serve | components/espix_cmds/cmd_blk.c:474-532 | over every run: no two records share a path, and the views in existence are exactly those the records own |
| MountTable.RecordAdded | components/espix_cmds/cmd_blk.c:1006-1013 | filling a record keeps paths and views apart |
| MountTable.RecordCleared | components/espix_cmds/cmd_blk.c:1062-1065 | clearing a record gives up exactly its own view |
| CommentStrip.StripComments | tools/check-abi.py:61-122 | the index loop computes the stripping of the text, for every input including unterminated comments and literals |
| CommentStrip.ScanToken | tools/check-abi.py:78-120 | one turn of the loop takes one token |
| CommentStrip.TokenKind | tools/check-abi.py:78-120 | a quote opens a literal, two slashes or a slash and a star a comment, anything else is code |
| CommentStrip.CopyLiteral | tools/check-abi.py:81-100 | a literal is copied verbatim to its end |
| CommentStrip.LiteralEndsFirst | tools/check-abi.py:81-100 | a literal ends at its first quote or newline with an even number of backslashes before it, or with the text |
| CommentStrip.BlankBlock | tools/check-abi.py:108-117 | a block comment becomes spaces with its newlines kept |
| CommentStrip.BlockEndsFirst | tools/check-abi.py:108-117 | a block comment ends at its first star and slash, or with the text |
| CommentStrip.BlankLine | tools/check-abi.py:102-106 | a line comment becomes spaces |
| CommentStrip.LineEndsFirst | tools/check-abi.py:102-106 | a line comment ends at its first newline, or with the text |
| CommentStrip.StripKeepsPlaces | tools/check-abi.py:61-122 | same length, every newline where it was, every other character itself or a space |
| CommentStrip.StripLeavesLiterals | tools/check-abi.py:61-122 | no comment is left outside a literal and every literal stands verbatim where it stood |
| CommentStrip.StripIsIdempotent | tools/check-abi.py:61-122 | stripping twice is stripping once |
| CommentStrip.Lexer.StrippedTokens | tools/check-abi.py:61-122 | the stripped text has the same tokens, its comments turned into white space |
| CommentStrip.LiteralKept | tools/check-abi.py:81-100 | a literal ends where it ended whatever is stripped behind it |

## Left out

- Pbkdf2: the SHA-256 compression function and initial value are arbitrary; PSA errors, timing and the wiping of buffers are not modelled.
- Pbkdf2.Verify: the account is handed in; Login.Verify is the check on the file.
- Login.ChangeIsFound: for files of a state whose names the format carries, as AccountTexts.RunTextRefines.
- Login.ChangeAndLogin: for such files too.
- PasswdCodec: strings have no NUL inside; `unsigned long` is 32 bits wide, and bases other than 10 and 16 are not read.
- Accounts.EveryRunReadsBack: only for runs that add names without colon, CR, newline or a leading #, because other names do not read back (see AccountTexts.AddUserReadsBack).
- AccountTexts.RunTextRefines: for those runs too, and for the same reason.
- AccountTexts.EveryRunKeepsFiles: for those runs too; AccountTexts.ColonNameBreaks is one outside them.
- Accounts.EveryRunKeepsInv: on the records and not on what the files read as, which is AccountTexts.EveryRunKeepsFiles.
- Accounts: home directories, klog lines and the default-password flag are not part of the state.
- AuthFiles: a file that is opened but only half written is not modelled, nor running out of memory in the commands.
- AuthFiles.Auth.Serve: for lookups whose refresh finds memory; AuthFiles.Auth.NameForUid says what happens otherwise.
- Umode: one hart, no floating-point registers, and addresses only on kernel stacks; the scheduler and the interrupt handlers are any code that keeps off other tasks' stacks.
- Umode.UmReturn: a pending signal, which diverts the pc in the frame before the return, is not modelled.
- UmodeRuns.ExceptionRoundTrip: for task code that leaves the saved registers alone; system calls, signals and faults, which change them on purpose, are not modelled.
- UmodeRuns.ExitsAgree: for runs that start with mstatus.MPP at U outside a handler, and task code that leaves it alone; UmodeRuns.AgreesExactly says what holds otherwise.
- UmodeIpc: a panic inside the handler while mscratch is 1 is not modelled.
- AudioHazard: a stream is closed once by its owner, as the interface asks; two threads opening at once and the recovery of streams of dead processes are not modelled.
- AudioConvert.Stream.OutputIsConversionOfInput: for a converter that works frame by frame (FrameWise); for any other only AudioConvert.ConvertAppend is claimed.
- AudioConvert: the arithmetic of the sample-rate converter is an arbitrary step function.
- EditorBuffer: rendering, help and key decoding, and running out of memory.
- EditorDoc: a line is a value in an array of lines, not a buffer of its own, and running out of memory is not modelled.
- BulkOnly: the bytes of a CBW, the write path, and the growth of the transfer buffer; what the host makes of a CSW that came whole is any function of its tag and bytes.
- ChmodSpec: a mode is the set of its bit numbers.
- MountTable: permissions, mount options, directories and the file systems themselves; that one device is mounted once is checked by mount and not by fstab, and is no invariant.
- MountTable.Mounts.Serve: states the invariant of the records and the views, and not each request's own outcome, which the requests' methods state.
- CommentStrip: the rest of the ABI check.
- The other commands, drivers, network services, the desktop and the release tools.
