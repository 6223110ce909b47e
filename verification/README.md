# A verified model of the IR0 userspace distribution

This project models the parts of the distribution that carry state, parsing and arithmetic, and proves
properties of them. Code that changes things step by step is a method or a class with a loop, proved against
a specification function; the lemmas are about those functions.

**The account database.** `Text` and `Fields` are the bottom: files are read by `fgets` into `char line[512]`,
so a file is the list of its chunks of at most 511 bytes, and fields are copied into C buffers of a given size.
`Shadow` is the reader and the rewriter of `/etc/shadow`; `ShadowLaws` has the round trip, the frame and the
algebra of updates; `ShadowProtocol` interleaves any number of writers and unlocked readers, with failures and
crashes, over inodes, and `ShadowSolo` shows that one writer of it alone is the routine of `Shadow`. `Accounts`,
`Groups` and `GroupUpdate` are the passwd and group files. `AccountDb` is a table of rows that the two files are a
rendering of, with runs of commands; `Adduser`, `Login` (which also holds `passwd`), `Firstboot`, `FirstbootSeed` and
`Console` are the tools, `PasswdTable` is passwd on such a table, and `NewAccount` is what an added account can do,
whether adduser finished or not.

**The capture and verdict machine.** `Kernel` has the pipe, the clock and the worker, whose answers come from
scripts and whose calls are logged: each reading of the clock, each end of file read, each answer of `waitpid`, each
SIGKILL with its time. `Needle` is the streaming matcher, `Fnv` the 32-bit FNV-1a hash, `Capture` the store and the
non-blocking drain. `Deadline` reads the limit of each pass off that log, `Supervisor` is the kill and reap loop,
and `Classify` is the verdict and what it is worth. `MatrixLog` is what the guest prints, `MatrixParse` what the host
script reads back, and `MatrixFile` the matrix it builds, writes, reads and checks profiles with.

**The build configuration.** `PyText` has the string functions of Python that matter here, `IsdConfig` the parser
and the writer of `.isdconfig`, `IsdValidate` its `set` and `validate` commands, and `Resolver` the shell script
that reads the same file.

What comes from outside is a parameter: `crypt` is a function with a stated law (`Login.CryptLaw`), system calls
answer from an oracle or a script of answers, the clock may lose any time at any reading, and random bytes and
typed text are arguments. Files hold no NUL.

## What turned out different

- The matcher is not a general substring search: it is one exactly for the needles in which every recurrence of
  the first byte before the last place starts the needle over (`Needle.CompleteExactlyWhenSelfAligned`). It misses
  `/bin/ls` in `/bin/bin/ls`.
- A supported case need not have met its end of file before its kill. Every supported run did, or ended in a normal
  exit with the expected code, exactly when the case expects another code than 0 or has an empty needle
  (`Classify.EofBeforeKillExactly`). For every other case a worker that writes its output, keeps the pipe open and
  hangs is killed, the kill closes the pipe, and the verdict is "supported" (`Classify.HungCaseIsSupported`).
- `ensure_group_member` tests for the new name with `strstr`, so `anna` is not added to a group that lists
  `annabel`, and the call still succeeds (`GroupUpdate.AnnaIsNotAdded`); `GroupUpdate.EnsureMembership` has the
  exact effect.
- `next_uid` wraps when an account already has uid 4294967295, to 0 if it is the only one
  (`AccountDb.NextUidWraps`); that is the only case in which the new uid is not above all others
  (`Accounts.NextUidFresh`).
- An account that adduser left half-made is not always locked. Stopped in its passwd line nobody logs in; stopped in
  its shadow entry a login checks against as much of the hash as was written (`NewAccount.AddedLogin`), so behind the
  colon exactly the empty password is accepted (`NewAccount.StoppedBehindColon`).
- Two shadow updates of different users commute exactly when one of the users is already listed: two appended
  entries keep the order of the updates (`ShadowLaws.SetHashCommutes`).
- On a shadow file whose last line has no newline, a new user's entry is glued to that line and cannot be looked
  up, unless the name has 63 bytes and the line and the name, cut to 63 bytes, are the name again
  (`ShadowLaws.UnterminatedRoundTrip`, `ShadowLaws.LongNameOverlaps`).
- A seed file may give a hash with a colon; the account then reads back a cut hash (`Firstboot.HashReadsBack`,
  `Firstboot.ColonHashIsCut`).
- `isdconfig.py set` looks at a dependency only when it turns NANO on: `NCURSES=n` is accepted while NANO is on, and
  leaves a file that `validate` refuses (`IsdValidate.SetDeps`, `IsdValidate.NcursesCanBeSetOff`). `validate` tests the
  dependencies before it scrubs, so scrubbing NCURSES can open one (`IsdValidate.AcceptedValidate`,
  `IsdValidate.AcceptedOnce`).
- The shell resolver and `isdconfig.py` disagree on the values `yes` and `1`, and on values that end in `=y`
  (`Resolver.ReadersAgree`, `Resolver.YesIsReadDifferently`).
- Documentation/FIRSTBOOT.md names `/etc/ir0-firstboot-done` as the second done marker. The code writes
  `/etc/firstboot.done` and only still accepts the other one; the model follows the code.

## Model

| member | source | states |
|---|---|---|
| Text.ChunksOfLines | lib/ir0_auth.c:424-447 | On a file of whole lines of at most 511 bytes the reads of the 512-byte buffer are exactly its lines |
| Text.WellFormedIsLines | lib/ir0_auth.c:424-447 | A file reads as whole lines exactly when it is a concatenation of lines that are newline-terminated and fit the buffer |
| Text.IdRoundTrip | lib/ir0_auth.c:172-173 | A 32-bit id printed in decimal and read by strtoul is the same id |
| Text.NumberRead | lib/ir0_auth.c:172-173 | What strtoul and the cast to 32 bits make of a number of any size, with blanks and a sign before it and anything behind |
| Fields.AuthField | lib/ir0_auth.c:132-155 | The pointer walk returns 0 exactly when the line has that many colons, and leaves in the buffer the field cut to its room; a zero-sized buffer and a negative index are refused |
| Fields.FieldOfJoin | lib/ir0_auth.c:132-155 | Reading field i of colon-joined field texts gives the i-th text, cut to the buffer: the reader inverts the printer |
| Shadow.LockAccounts | lib/ir0_auth.c:360-378 | The lock is taken exactly when the lock file opens and one of twenty tries succeeds |
| Shadow.ShadowFiles.ShadowHash | lib/ir0_auth.c:231-263 | The buffer holds what the lookup function finds, and the error cases are exactly a missing file, an empty buffer, an absent user or a line without a hash field |
| Shadow.ShadowFiles.ShadowSetHash | lib/ir0_auth.c:388-484 | 0 exactly when every call went well, and then the file is the updated one and no temporary file is left; -1 leaves every byte of the shadow file |
| ShadowLaws.SetHashChunks | lib/ir0_auth.c:424-461 | An update of a well-formed file that fits is a well-formed file with exactly the rewritten lines |
| ShadowLaws.SetThenLookup | lib/ir0_auth.c:231-263 | After an update the user's lookup is the new hash and every other user's lookup, absence included, is unchanged |
| ShadowLaws.FirstEntryDecides | lib/ir0_auth.c:231-263 | Of several lines of a user the first decides |
| ShadowLaws.SetHashTwice | lib/ir0_auth.c:424-461 | Of two updates of one user the last one alone decides every byte; the same update twice is once |
| ShadowLaws.SetHashCommutes | lib/ir0_auth.c:424-461 | Updates of two users give the same bytes in both orders exactly when one of them is listed |
| ShadowLaws.AgingSurvives | lib/ir0_auth.c:417-461 | Line by line: other lines survive whole, and a line of the user gets the new hash and keeps what stands behind the second colon, up to its trailing CR and LF, or the default where nothing stands |
| ShadowLaws.UnterminatedRoundTrip | lib/ir0_auth.c:424-461 | With an unfinished last line, the lookup after an update returns the hash exactly when the user was listed, or when a 63-byte name overlaps itself at that line |
| ShadowProtocol.NextKeeps | lib/ir0_auth.c:360-484 | Every step of every writer and reader, failing or not, keeps the protocol's invariant |
| ShadowProtocol.Linearizable | lib/ir0_auth.c:388-484 | After any schedule of steps, failures and crashes the live file is the original with the completed updates applied in the order of their renames, and a process returned 0 exactly when its update is among them |
| ShadowProtocol.ReadersSeeOneVersion | lib/ir0_auth.c:231-263 | Every answer an unlocked reader got is the lookup in the file that was live at the step in which it opened it: the original with exactly the updates renamed in before, every one among them that had returned 0 |
| ShadowProtocol.ReadersAnswer | lib/ir0_auth.c:231-263 | A reader that makes more calls than the file it opened has bytes has its answer, whatever the others do |
| ShadowProtocol.OnlyHolderWrites | lib/ir0_auth.c:360-484 | Only the lock holder changes any byte or moves a name, and the live file moves only by a rename that succeeds |
| ShadowProtocol.MutualExclusion | lib/ir0_auth.c:360-386 | At most one process is between taking and giving back the lock |
| ShadowSolo.SoloWriter | lib/ir0_auth.c:388-484 | One writer of the protocol alone, given the same answers, returns what the routine returns and leaves the file it leaves |
| Groups.GroupList | lib/ir0_auth.c:486-537 | The array holds the groups of the login, and the places behind them are as they were |
| Groups.GroupListExact | lib/ir0_auth.c:486-537 | Primary gid first, no duplicates, never more than max, later gids in file order from lines listing the user, and all of them when there is room |
| Groups.UserInGroup | lib/ir0_auth.c:539-579 | Found exactly when a line of that group has the user among its comma-separated members |
| Groups.GroupLineGid | lib/ir0_auth.c:486-537 | The third field of a group line is the gid of those it lists |
| Groups.TokensAre | lib/ir0_auth.c:539-579 | The members of a comma-separated list are its names, empty ones left out |
| Groups.MembersAreListed | lib/ir0_auth.c:486-579 | A member of a group by name has that line's gid in an unfilled group list |
| GroupUpdate.GroupFile.EnsureGroupMember | services/ir0_adduser.c:117-205 | 0 exactly when no call fails, and then the file is the updated one; -1 leaves it |
| GroupUpdate.EnsureMembership | services/ir0_adduser.c:117-205 | The exact membership of every user in every group after an update, the new member included |
| GroupUpdate.EnsureKeepsLines | services/ir0_adduser.c:117-205 | Line by line: only the lines of the group up to the first that mentions the user change, and of those only the members; a group without a line gets one with the given gid |
| GroupUpdate.EnsureMakesMember | services/ir0_adduser.c:117-205 | The update makes the user a member when the name is no proper part of a member of that group |
| GroupUpdate.LongerMemberBlocks | services/ir0_adduser.c:159-165 | A group whose only member contains the new name is left as it is, without the new member |
| GroupUpdate.EnsureTwice | services/ir0_adduser.c:117-205 | A second update leaves the file identical |
| Accounts.AccountLookup | lib/ir0_auth.c:157-229 | The first line that parses and matches the name or the uid, comments and short lines passed over |
| Accounts.FirstHit | lib/ir0_auth.c:182-229 | A search gives the account of the first line that is no comment, parses and fits, and none only when no line does |
| Accounts.LineParses | lib/ir0_auth.c:157-180 | The account of a passwd line, with `/` and `/bin/sh` for a home or a shell that is empty or not there |
| Accounts.CheckUsername | services/ir0_adduser.c:40-63 | Accepts exactly the names of 2 to 63 small letters, digits, `_` and `-` that begin with a letter or `_` and are not one of the four reserved |
| Accounts.NextUid | services/ir0_adduser.c:65-87 | The loop computes the next uid of the file, or 1000 without a file |
| Accounts.NextUidFresh | services/ir0_adduser.c:65-87 | The new uid is at least 1000 and above every uid of the file exactly when no line has uid 4294967295 |
| Accounts.AppendLine | services/ir0_adduser.c:89-115 | Success exactly when the whole line is written; otherwise the file has gained exactly what the writes got out, partial writes included |
| Accounts.WrittenStops | services/ir0_adduser.c:89-115 | Writes that get something out up to one that does not leave the beginning of the line that they wrote |
| AccountDb.PasswdLineReads | lib/ir0_auth.c:157-180 | A printed passwd line parses back to its row |
| AccountDb.FindInRendered | lib/ir0_auth.c:182-229 | A lookup in the printed file is the lookup in the table |
| AccountDb.AddUserRefines | services/ir0_adduser.c:281-307 | Appending the two lines is adding a row with a fresh uid, and refusing an existing name is leaving the table |
| AccountDb.SetPasswordRefines | lib/ir0_auth.c:388-484 | The byte rewrite is changing one row's hash, and the passwd file stays |
| AccountDb.RunRefines | services/ir0_adduser.c:207-324 | Any run of commands on the files is the run on the table, which stays good |
| AccountDb.RenderConsistent | lib/ir0_auth.c:157-180 | A good table prints as two well-formed files with the same names line for line, unique names and unique uids |
| AccountDb.WholeRun | services/ir0_firstboot.c:150-239 | From first boot's files, every run of adduser and passwd commands keeps the files consistent |
| AccountDb.EarlierAccountsKept | services/ir0_adduser.c:281-307 | No run changes an earlier lookup by name or by uid |
| AccountDb.NewAccountUid | services/ir0_adduser.c:65-87 | A new account has a uid of at least 1000 above all others and is found under its name |
| AccountDb.NextUidWraps | services/ir0_adduser.c:65-87 | With an account of uid 4294967295 the next uid is 0 |
| Adduser.PasswdTextIsLine | services/ir0_adduser.c:284-290 | For a valid name no snprintf of the passwd line truncates, and the text is the row's line |
| Adduser.Etc.AddUser | services/ir0_adduser.c:207-324 | A command that is not accepted changes nothing; an accepted one leaves exactly what its writes got out, in their order; exit 0 means passwd and shadow are those of the finished command and both groups were updated, and it follows when no write fails |
| NewAccount.NewAccountLogin | services/ir0_adduser.c:274-307 | After adduser the new user logs in with exactly the passwords that crypt to the new hash, the chosen one among them, and every other name as before |
| NewAccount.AddedLogin | services/ir0_adduser.c:284-317 | Whatever writes failed, the new user logs in exactly when the passwd line is whole and the password checks against as much of the hash as was written |
| NewAccount.StoppedBehindColon | services/ir0_adduser.c:302-307 | When the writes stop behind the colon of the shadow entry, exactly the empty password logs in |
| NewAccount.NewMemberships | services/ir0_adduser.c:308-317 | After both group updates the exact membership of every user in every group, in terms of the file before |
| NewAccount.FirstLogin | services/ir0_firstboot.c:150-209 | After first boot the user logs in with exactly the passwords that crypt to the hash, and root not at all when locked or denied |
| Login.Authenticate | services/runit_console_run.c:146-181 | The code of auth_user finds exactly the account its specification grants |
| Login.LoginChecks | services/runit_console_run.c:163-181 | What a login is checked against: the passwd field itself unless it is `x` or `*`, else the first shadow entry; an empty field takes the empty password, one with `$` what crypts to it, others nothing |
| Login.PasswordHashStores | lib/ir0_auth.c:273-354 | A produced hash verifies its password and can be stored in an entry |
| Login.PasswordHashSetting | lib/ir0_auth.c:294-354 | The setting is `$6$` with a salt of 16 characters, each taken by one random byte from the crypt alphabet |
| Login.NoLockedLogin | services/runit_console_run.c:146-181 | Root is never accepted beside the deny file, and no account with a locked field is |
| Login.Passwd | services/ir0_passwd.c:55-160 | Exit 1 leaves the shadow bytes; exit 0 is exactly when the command is accepted and the update's calls work, and then only the hash changed of the user named by the argument, or of the caller's account without one |
| PasswdTable.PasswdOnTable | services/ir0_passwd.c:69-153 | On the files of a table: exactly when a change of the row the argument names, or of the caller's own, is accepted; then the files are those of the table with that one hash changed, and every other name reads what it read |
| PasswdTable.PasswdRefused | services/ir0_passwd.c:69-89 | A caller without an account and an argument that names none are refused |
| Login.OnlyOwnPassword | services/ir0_passwd.c:69-125 | A caller other than root can only change an entry with its own uid whose old password it gave |
| Login.ChangedPasswordLogin | services/ir0_passwd.c:127-153 | After a change, login accepts exactly the passwords that crypt to the new hash, the new one among them, and other entries read as before |
| Firstboot.System.WriteFile | services/ir0_firstboot.c:43-75 | 0 exactly leaves the data in the file; on the way no other file changes, and every state comes from the one before by one operation |
| Firstboot.System.WriteAccounts | services/ir0_firstboot.c:150-239 | At every state of the disk, none skipped, a done marker implies that the four account files are complete; success sets the marker, removes the autologin file and leaves no flag file that is off, and when no write fails those that are on are there |
| Firstboot.AccountFilesWhole | services/ir0_firstboot.c:160-178 | For every valid name and hash of at most 191 bytes no account text is cut: the files are the table of root and the user |
| Firstboot.AccountsReadBack | services/ir0_firstboot.c:160-163 | The written passwd file gives root and the uid-1000 account by name and by uid |
| Firstboot.HashReadsBack | services/ir0_firstboot.c:164-167 | The user's hash reads back exactly when it holds no colon, and a locked root reads as locked |
| Firstboot.ColonHashIsCut | services/ir0_firstboot.c:164-167 | A concrete setup whose hash holds a colon and does not read back |
| Firstboot.GroupsReadBack | services/ir0_firstboot.c:168-178 | The user is in users, and in wheel exactly when asked |
| Firstboot.FirstGroups | services/ir0_firstboot.c:168-178 | The groups the user gets at login are users (100) and, when asked, wheel (10) |
| Firstboot.SeedAppliance | services/ir0_firstboot.c:259-274 | At every state of the disk, none skipped, a marker implies that only a locked root exists |
| Firstboot.FirstbootMain | services/ir0_firstboot.c:421-518 | A run that finds a marker, or has nothing to answer from, changes nothing; other runs are safe at every state of the disk, set the marker when they return 0, and return 0 when no write fails |
| FirstbootSeed.ReadSeed | services/ir0_firstboot.c:276-323 | The loop over 255-byte reads makes of a seed file what its specification says |
| FirstbootSeed.SeedFileSays | services/ir0_firstboot.c:276-323 | A seed file of whole lines gives the setup of the last value of each key, cut to its buffer, with the defaults for keys it leaves out, or none without a valid user and a hash |
| FirstbootSeed.SeedAlwaysOk | services/ir0_firstboot.c:276-323 | Whatever a seed file holds, it is refused or gives a setup that fits every buffer |
| FirstbootSeed.SeedRoundTrip | services/ir0_firstboot.c:276-323 | A seed file written for a setup of one-line values reads back as that setup |
| Console.RunUserSessions | services/runit_console_run.c:300-376 | The events of a login are those of its shells up to a logout or a failed fork, and the log stays safe |
| Console.ConsoleMain | services/runit_console_run.c:492-592 | An appliance has no login. Otherwise every login asked for, by autologin or by a name typed, leaves its answer in order, granted exactly when the name and password are accepted; a granted one has its shells up to a logout or a failed fork; only a session that goes on keeps one waiting |
| Console.ConsoleAnswers | services/runit_console_run.c:492-592 | The same of the events that the attempts determine |
| Console.GrantGetsShell | services/runit_console_run.c:303-376 | The event after a grant is a shell of that account, or the fork that failed |
| Console.AutologinRead | services/runit_console_run.c:528-537 | The autologin name is the first line of its file up to a blank |
| Console.EveryShellAuthenticated | services/runit_console_run.c:153-181 | In a safe log every shell runs as an account that passed authentication with no logout or fork failure since, root only without the deny file, nobody with a locked field |
| Console.AbnormalEndResumes | services/runit_console_run.c:300-376 | After a shell that did not exit with 0 comes another of the same account, or a failed fork |
| Console.LogoutForcesLogin | services/runit_console_run.c:364-376 | After a logout the next event is a login |
| Needle.NeedleMatcher.FeedData | smoke/matrix_capture.c:44-82 | The loop leaves the matcher in the state of the byte-by-byte specification |
| Needle.ChunkingIsIrrelevant | smoke/matrix_capture.c:44-82 | However the stream is cut, the matcher ends as after one big feed |
| Needle.SeenIsSound | smoke/matrix_capture.c:25-87 | A find is a contiguous occurrence of the needle |
| Needle.SeenIsComplete | smoke/matrix_capture.c:25-87 | For a self-aligned needle every occurrence is found |
| Needle.CompleteExactlyWhenSelfAligned | smoke/matrix_capture.c:25-87 | Finding and occurring agree on all streams exactly for the self-aligned needles |
| Needle.CompleteForFreshStart | smoke/matrix_capture.c:25-87 | They agree when the first byte recurs at most at the last place |
| Needle.BinLsIsMissed | smoke/matrix_capture.c:56-80 | The needle `/bin/ls` occurs in `/bin/bin/ls` and is not found |
| Fnv.HashInjective | smoke/matrix_capture.c:269-282 | The same bytes keep different hashes different |
| Fnv.KnownHashes | smoke/matrix_capture.c:269-282 | The published values of 32-bit FNV-1a for three inputs |
| Fnv.OneByteChangesHash | smoke/matrix_capture.c:269-282 | Two outputs of one length that differ in one byte have different hashes |
| Capture.MatrixCapture.FeedData | smoke/matrix_capture.c:102-128 | The store holds the first bytes up to its room, truncated says whether there were more, and the matcher has seen all of them |
| Capture.MatrixCapture.ReadNb | smoke/matrix_capture.c:170-202 | What is read is fed, in order, and end of file means everything written |
| Capture.MatrixCapture.DrainToEof | smoke/matrix_capture.c:204-267 | 0 exactly at end of file, with everything the writer wrote fed; otherwise the capture is marked timed out, and only after a hard error or the whole timeout |
| Capture.StoredByteChangesHash | smoke/matrix_capture.c:102-128 | A byte the store keeps changes the stored hash |
| Capture.UnstoredByteKeepsHash | smoke/matrix_capture.c:102-128 | Outputs that agree on what the store keeps have the same stored hash |
| Deadline.LimitsMoveOnce | smoke/busybox_matrix_smoke.c:393-411 | Over any log the limit of the passes never decreases and only ever moves from the deadline to one later time |
| Deadline.KillTimes | smoke/busybox_matrix_smoke.c:393-411 | Event by event: a SIGKILL comes 12 seconds after the first reading and 5 seconds after the first end of file |
| Deadline.InTimeMeans | smoke/busybox_matrix_smoke.c:393-411 | A reading is in time within 12 seconds of the first or within 5 of the one that noticed an end of file |
| Deadline.OverdueMeans | smoke/busybox_matrix_smoke.c:393-411 | The overdue reading is the last, and the first that is not in time |
| Supervisor.WaitForExit | smoke/busybox_matrix_smoke.c:381-517 | The loop ends. It sends a SIGKILL only after a reading of the clock at its limit or later, all earlier ones being before theirs, and forty more looks at the worker; the logged time of the kill is at or after the first reading plus 12000 ms and at least 5000 ms after a logged end of file. What it says of the worker is what `waitpid` answered |
| Supervisor.ReapKilled | smoke/busybox_matrix_smoke.c:489-517 | After the kill the worker is looked for and the pipe read for two seconds; what is reported is what `waitpid` answered |
| Supervisor.RunCase | smoke/busybox_matrix_smoke.c:314-606 | A finished case was killed at most once and in time; its wait status is the one `waitpid` gave, its end of file one that was read, with everything the worker wrote captured, and its exit code and timeout follow from these; -1 means that a call of the harness failed |
| Classify.StoreContains | smoke/busybox_matrix_smoke.c:611-627 | Plain substring search in the store |
| Classify.Complaints | smoke/busybox_matrix_smoke.c:629-702 | The three texts taken for a complaint |
| Classify.ClassifyFull | smoke/busybox_matrix_smoke.c:629-702 | The out-parameters are those of the ordered list of tests |
| Classify.StatusTold | smoke/busybox_matrix_smoke.c:559-606 | What a finished case reports as exit code and timeout, from the bits of the wait status in the log and the kill |
| Classify.VerdictTold | smoke/busybox_matrix_smoke.c:559-702 | The verdict, the reason and the flags of a finished case, from the wait status, the end of file and the kill in the log and the bytes kept |
| Classify.SupportedMeans | smoke/busybox_matrix_smoke.c:489-702 | "supported" implies an end of file read, a complete capture, a reaped worker, the needle in the output, no stored complaint, and a normal exit with the code or one kill in time |
| Classify.SupportedExactly | smoke/busybox_matrix_smoke.c:489-702 | The exact condition for "supported", for every expected exit code below 124 |
| Classify.FlagsAgree | smoke/busybox_matrix_smoke.c:629-702 | "supported" exactly when all three flags are set, and the reasons no-reap and no-eof do not occur |
| Classify.NeedleDecides | smoke/busybox_matrix_smoke.c:489-606 | With a self-aligned needle the flag is exactly its occurrence in the complete output |
| Classify.EofBeforeKillExactly | smoke/busybox_matrix_smoke.c:489-606 | For which cases every supported run ends in a normal exit with the code or meets the end of file before its kill |
| Classify.HungCaseIsSupported | smoke/busybox_matrix_smoke.c:489-606 | For each of the other cases a run of the supervisor that is supported and met its end of file only after the kill |
| MatrixLog.PutU64 | smoke/busybox_matrix_smoke.c:99-120 | The digits filled in from the right are the decimal text, for every 64-bit value |
| MatrixLog.IntRoundTrip | smoke/busybox_matrix_smoke.c:122-131 | A printed int reads back as itself, the smallest one included |
| MatrixLog.TalliesSum | smoke/busybox_matrix_smoke.c:788-873 | The three tallies sum to the number of cases, and all are supported exactly when that tally is the whole |
| MatrixLog.RunMatrix | smoke/busybox_matrix_smoke.c:761-873 | The log is the expected text and ok is set exactly when every case is supported |
| MatrixLog.CaseTextSays | smoke/busybox_matrix_smoke.c:704-759 | The three lines of a case, field by field |
| MatrixLog.EndTextSays | smoke/busybox_matrix_smoke.c:844-873 | The lines at the end of the log, field by field |
| MatrixParse.Parse | scripts/busybox_applet_matrix.py:63-81 | The loop over the matches fills the table its specification gives, or refuses the log |
| MatrixParse.TableAt | scripts/busybox_applet_matrix.py:69-81 | The last line of an applet gives its status, with the exit code and the reason as evidence |
| MatrixParse.LogScanned | scripts/busybox_applet_matrix.py:28-31 | The pattern finds in a guest log exactly one match a case, with its values, and the OK tag exactly when all are supported |
| MatrixParse.AcceptedLogIsSupported | scripts/busybox_applet_matrix.py:63-81 | A complete log is accepted exactly when it has cases and all are supported, and then maps exactly the tested applets to supported |
| MatrixFile.WriteThenRead | scripts/busybox_applet_matrix.py:135-160 | Writing rows padded to a common width and reading them gives the rows back |
| MatrixFile.ReadShortRow | scripts/busybox_applet_matrix.py:147-160 | A line of two columns has no evidence; one column, or a comment, says nothing |
| MatrixFile.BuiltReadBack | scripts/busybox_applet_matrix.py:119-160 | The matrix read back has exactly the binary's applets, each with the verdict of the log, else of the evidence, else of the probe |
| MatrixFile.CheckProfile | scripts/busybox_applet_matrix.py:173-200 | No failure exactly when the profile is not empty, every applet is in the matrix and, where asked, supported |
| MatrixFile.TestedProfilePasses | scripts/busybox_applet_matrix.py:63-200 | From the guest to the gate: a strict profile of tested applets passes on the matrix of an accepted log |
| IsdConfig.ParseCfg | scripts/isdconfig.py:64-76 | The loop parses the file to what its specification says; a missing file is an empty configuration |
| IsdConfig.ParseMeans | scripts/isdconfig.py:64-76 | A file of settings, comments and other lines parses to the last value of each key with blanks taken off, and to nothing else |
| IsdConfig.DefaultsAre | scripts/isdconfig.py:40-52 | The nine known keys and their defaults |
| IsdConfig.WriteThenParse | scripts/isdconfig.py:64-103 | Writing and parsing trimmed one-line values gives back the known keys with the defaults filled in |
| IsdConfig.ParsedIsPlain | scripts/isdconfig.py:64-76 | Whatever a file holds, every parsed value is one trimmed line |
| IsdValidate.ScrubAt | scripts/isdconfig.py:159-169 | Scrubbing turns off exactly the listed packages that are on and refused |
| IsdValidate.ConfigFile.Set | scripts/isdconfig.py:225-262 | All assignments are good and the file is rewritten, or nothing is |
| IsdValidate.SetTakes | scripts/isdconfig.py:225-262 | A list is refused exactly when one of its assignments would be, whatever the file holds |
| IsdValidate.SetDecides | scripts/isdconfig.py:225-262 | After any list a package is on exactly when it can be built and the last assignment that decides it, or without one the file before, has it on |
| IsdValidate.SetTop | scripts/isdconfig.py:225-262 | The same for the TOP applet |
| IsdValidate.AssignmentRead | scripts/isdconfig.py:172-198 | How an assignment is read: blanks, case, and the long, short and bare spellings of a key |
| IsdValidate.YesMeans | scripts/isdconfig.py:117-122 | The values that count as on |
| IsdValidate.ExtrasRefused | scripts/isdconfig.py:125-156 | Which extras cannot be built, by the name of their directory, and DOOM without its data file |
| IsdValidate.SetKeepsCore | scripts/isdconfig.py:225-262 | A successful set never turns core off, and every extra it leaves on can be built |
| IsdValidate.SetDeps | scripts/isdconfig.py:225-262 | After any list of assignments the dependencies are closed exactly when the last ones that decide NANO and NCURSES do not break them |
| IsdValidate.NcursesCanBeSetOff | scripts/isdconfig.py:225-262 | A concrete list that `set` accepts and whose file `validate` refuses |
| IsdValidate.ConfigFile.Validate | scripts/isdconfig.py:265-322 | The exit status and the new file, the internal scrub error never being raised |
| IsdValidate.AcceptedValidate | scripts/isdconfig.py:265-322 | An accepted validate leaves core on and every enabled extra buildable; the dependencies are closed, and a second validate accepts, exactly when NANO was not kept without a recipe for NCURSES |
| IsdValidate.AcceptedOnce | scripts/isdconfig.py:265-322 | A concrete file that a first validate accepts and a second refuses |
| IsdValidate.SecondValidate | scripts/isdconfig.py:265-322 | When a second validate accepts, for every file |
| IsdValidate.ValidateIdempotent | scripts/isdconfig.py:265-322 | A second validate leaves the file identical, accepted or not |
| Resolver.Resolve | scripts/resolve-packages.sh:13-88 | The list is core first, then the rest of the wanted set in byte order |
| Resolver.OrderedUnique | scripts/resolve-packages.sh:76-88 | The set alone decides the list, whatever the order of the hash table |
| Resolver.OrderedHolds | scripts/resolve-packages.sh:76-88 | The list holds exactly the set, without duplicates |
| Resolver.OrderedMeans | scripts/resolve-packages.sh:76-88 | busybox, then runit, then the others in byte order |
| Resolver.ProfileNamesAre | scripts/resolve-packages.sh:26-31 | The names read from a profile are exactly the packages it lists, with blanks around them and with or without a last newline |
| Resolver.EveryProfileLists | scripts/resolve-packages.sh:26-31 | Every file is the text of such a list |
| Resolver.ReadersAgree | scripts/resolve-packages.sh:48-58 | On a written line the two readers agree exactly on the values other than yes, 1 and those ending in =y |
| Resolver.WrittenResolve | scripts/resolve-packages.sh:23-74 | On a written configuration and a profile that lists packages, comments and blank lines, the set is exactly the recipe-backed members of core, the listed packages and the enabled extras, with ncurses beside nano |
| Resolver.OptionAsksNothing | scripts/resolve-packages.sh:48-58 | A name that echo takes for options asks for no package |
| Resolver.NanoClosed | scripts/resolve-packages.sh:63-74 | For every profile and configuration nano brings ncurses when ncurses has a recipe |
| Resolver.YesIsReadDifferently | scripts/resolve-packages.sh:48-58 | Concrete values that the two readers take differently |
| Resolver.ScrubbedResolve | scripts/isdconfig.py:159-169 | What set or validate leaves on after scrubbing, the resolver builds |

## Left out

- Concurrent adduser and firstboot writers: neither takes the lock, so the linearizability result is about the
  writers of `ir0_shadow_set_hash` and unlocked readers.
- NUL bytes inside files, and file systems that lose data after a rename: files are the bytes last written.
- Firstboot.SeedDevelopment: rewrites shadow after the done marker, so only its final files are stated, not its
  crash states.
- Firstboot.FirstbootMain: the answers typed in the wizard are a parameter, and removing the seed file afterwards
  is not modelled.
- Directories, owners, modes and hard links that adduser and firstboot set up: an I/O answer at most.
- Firstboot.HashReadsBack: hashes with CR or LF are shut out, since no seed line can carry one.
- ShadowLaws.SetThenLookup: rewritten lines longer than 511 bytes are shut out, since the readers would cut them.
- The parent's recovery from SIGSEGV with siglongjmp in the matrix harness: a case that ends that way is only one
  more outcome without capture.
- The blocking `waitpid` of the supervisor answers from its script; a kernel that never answers is not modelled. A
  pipe whose script is over delivers the rest of the output at once.
- Firstboot.PendingIsNotDone: the console's test on the markers is the negation of first boot's own; it is in the
  model but no result of its own.
- Supervisor.RunCase: a capture is taken as `matrix_capture_init` leaves it, which its only caller does just before.
- MatrixLog.RunMatrix: the hexadecimal text of the store hash is taken as given.
- The table of cases itself, the work directory and the messages of the matrix harness.
- The host probe, the reading of the evidence file and the 80 % coverage line of the applet matrix: the two
  sources of verdicts are parameters of `MatrixFile.BuildMatrix`.
- Case mapping and digits outside ASCII in the two Python scripts, and invalid UTF-8.
- The `defconfig`, `show` and `menu` commands of isdconfig.py, its printed warnings, and the search for the file.
- Names that bash reads specially as subscripts of an associative array in resolve-packages.sh.
- Terminal echo, banners, prompts, audit text, serial tags, keymap, environment and privilege setup of a session.
- Package recipes, image packing, the other services and the audit scripts: build plumbing and finite tables.
