# Verification of the authenticated proxy

This project models the parts of the proxy that hold state, loop or speak a protocol, and proves
what their runs keep. `dafny verify dfyconfig.toml` checks all of it (Dafny 4.11).

| files | what they model |
|---|---|
| `auth_cache.dfy`, `tokens.dfy`, `authd.dfy`, `authd_runs.dfy`, `authd_replies.dfy`, `token_text.dfy` | the per-user daemon `authd.py`: success cache, token record, leave marker, requests that interleave at the PAM await, file updates that stop half-way, restarts, and the files that the join and leave scripts write beside it |
| `bytes.dfy`, `stats_log.dfy`, `ranking.dfy` | the backward chunked log reader and the download ranking |
| `http_head.dfy`, `numerals.dfy`, `base64.dfy`, `connect_request.dfy` | the request-head reader, the CONNECT parser, and the printer of `status_proxy.py` |
| `session.dfy`, `dotted.dfy`, `socks.dfy`, `socks_facts.dfy`, `socks_answers.dfy`, `http_session.dfy`, `http_answers.dfy`, `front_ends.dfy` | the SOCKS5 and HTTP sessions, and the one policy both refine |
| `relay.dfy` | the two relay tasks and their controller under a real-valued clock |
| `whitelist.dfy` | the whitelist decision |
| `manifest.dfy`, `rollout.dfy` | the staged updater with its three control files |
| `shell_block.dfy` | the shell-rc block that configure adds and leave removes |
| `apply_adapter.dfy` | the transactional apply with its restore |

## How to read it

Code that changes state is a class or a method with the source's own fields and loops. Each such
method is proved equal to a specification function over values (`Authd.Step`, `Socks.Greet`,
`HttpSession.Script`, `Rollout.Step`, `ShellBlock.Filter`, ...), and the properties are lemmas about
those functions over every run. Clocks, PAM answers, group membership, git, JSON decoding, the
schedule, the cut of a stream into chunks and the point of a crash are parameters, so every lemma
holds for all of them.

A proxy session is written down as its list of acts: messages to the client, checks of group, PAM
and whitelist, the dial, bytes to the upstream, the start of the tunnel. The specification function
gives the whole list; a session in which a drain raises performs a beginning of it. A statement about
an act that occurs therefore also holds of every interrupted session.

What a caller or client is told is also stated apart from the specification functions, in literal
codes, statuses and bytes: `AuthdReplies`, `SocksAnswers` and `HttpAnswers`. Ports are read back from a
decimal text that is printed on its own (`Numerals`).

SHA-256 and HMAC are free constructors, that is injective functions. User names, passwords and hosts
are byte strings. In the token file, `TokenFile.Single` is the first format, one bare digest.

## What the proofs found

- **A revocation that stops between its two files is not final.** After the marker is set, but before
  `token.sha256` is unlinked, every authentication is denied. The next issue then reads the revoked
  digest as the previous one and lets it match again for the rotation grace. This happens exactly when
  the unlink was not reached (`InterruptedRevokeRevivesToken`); a revocation that reached it is final
  (`RevokedTokenIsRefused`).
- **A leave can be undone by a join that started before it.** An issue-token request that is still waiting
  for PAM clears the marker when it succeeds, and join-proxy.sh removes the marker once more as its last
  step, after it has its token and has edited the shell. Without a later issue-token request access comes
  back exactly when such a request waits or such a join has not come to its end
  (`LeaveUndoneIffJoinUnderWay`); `RevokeUndoneIff` says so for every way in which a revocation that set the
  marker can stop.
- **A bare digest that reads as a JSON number blocks the token file.** `.get` is then called on a
  number, so each check and each issue raises until a revocation removes the file, and only then
  (`StuckIffNumeric`). Such digests are those of decimal digits with at most one `e` inside and no
  needless zero in front (`NumericDigests`); 64 ones are one (`SomeDigestsAreNumeric`).
- **A crash between the revision write and the sequence write weakens the replay check.** The next
  manifest for another target is compared with the old sequence. `NextManifestNeeds` gives the exact
  condition, `TornRunAllowsOlderManifest` a run in which an older manifest installs, and
  `InstalledSequencesIncrease` shows that no other crash point allows it.
- **A re-run after a crash never writes `pending-activation`**; the file stays as the crash left it
  (`RerunFinishes`).
- **The marker guard of the shell scripts counts but does not order.** A closing marker before an
  opening one passes, the filter then drops every line behind the opening marker, and from then on
  both scripts refuse the file. A second run is accepted exactly when the markers take turns
  (`RerunAcceptedIff`, `MisorderedMarkersLoseLines`).
- **The log reader can skip recent rows when the clock of the log has stepped back.** It is exact for
  every chunk size if and only if no recent row stands before an old one (`ExactIffSettled`). For every
  decoder, every recent and every old line, and every chunk size that holds the old line, the actual two
  mebibytes among them, there is a log on which the recent row is lost (`RecentRowIsLost`); a log within
  one chunk is always read completely (`SmallLogIsExact`).
- **The restore covers the application and the six units only.** Directories beside the application that
  were missing, the command link and a first `auto-update.env` stay if the installer got to write them. The
  paths outside are as before exactly when it stopped ahead of these writes (`OutsideRestoredIff`, with
  `DirectoryIsLeft` and `LinkIsLeft` as runs on which they are not).

## Model

| member | source | states |
|---|---|---|
| AuthCache.SuccessCache.Get | authd.py:120-128 | a hit is an entry whose expiry has not passed; an expired entry is removed, nothing else changes |
| AuthCache.SuccessCache.Put | authd.py:131-141 | with a full cache, expired entries go first, then the soonest to expire until one place is free; the loop ends and the size bound is kept |
| AuthCache.SuccessCache.DropExpired | authd.py:134-137 | popping by key while walking a snapshot leaves exactly the unexpired entries, in order |
| AuthCache.MakeRoomFacts | authd.py:138-140 | whatever eviction removes had, at that moment, at least 127 other keys that expire no earlier |
| AuthCache.RunAgrees | authd.py:116-141 | after every run of puts, gets and clears each entry carries its last put time plus the TTL, and every missing credential is expired or crowded out |
| AuthCache.HitIsRecent | authd.py:120-128 | a hit means that this user and password were stored at most CACHE_TTL ago and since the last clear |
| AuthCache.MissIsExplained | authd.py:131-141 | a stored, unexpired credential misses only if at least CACHE_MAX_ENTRIES - 1 other keys were put at or after its last put |
| AuthCache.SizeIsBounded | authd.py:131-141 | the cache never holds more than CACHE_MAX_ENTRIES entries nor a key twice |
| Tokens.RunReflectsHistory | authd.py:217-256 | the stored record is always the newest token since the last revocation, and the one before it with the deadline of its rotation |
| Tokens.MatchIffInForce | authd.py:196-214 | after any run of issues and revocations a token matches iff it is the newest, or the one before it within the grace; a legacy digest counts as the last issued token |
| Tokens.AtMostTwoMatch | authd.py:196-214 | at most two tokens match at once |
| Tokens.RevokedNeverMatches | authd.py:161-186 | a token from before a revocation never matches again unless a later issue generates the same one |
| Tokens.NumericDigests | authd.py:205-206 | the JSON decoder takes a digest for a number iff it has only decimal digits, but for one `e` inside at most, and no needless zero in front |
| Tokens.SomeDigestsAreNumeric | authd.py:205-206 | a digest that is taken for a number, and one that is not |
| Tokens.StuckIffNumeric | authd.py:205-230 | after any number of issues a first-format file makes every check raise iff its digest reads as a number, and it is replaced by the first issue iff it does not |
| Authd.Daemon.DisableProxyAccess | authd.py:161-186 | marker, token file and cache after a revocation that completes, raises or is killed at any file operation |
| Authd.Daemon.IssueProxyToken | authd.py:217-256 | record, marker and reply after an issue that completes, raises or is killed at any file operation; the marker is cleared last |
| Authd.Daemon.AuthenticateUntilPam | authd.py:290-308 | leave marker first, then the token shape, then the cache; only what is left over goes to PAM |
| Authd.Daemon.HandleArrival | authd.py:330-381 | the dispatch on caller, operation and user, up to the PAM await |
| Authd.Daemon.HandlePamReply | authd.py:309-315 | after the await: a success is cached; an authenticate request gets PAM's own answer and code, an issue-token request the stored token or the refusal |
| AuthdRuns.RevokeIsAtomic | authd.py:161-186 | wherever a revocation stops, either marker and tokens are as before or every authentication is denied |
| AuthdRuns.IssueIsAtomic | authd.py:217-256 | wherever an issue stops, the record is wholly old or wholly new, and a user who had left stays out unless the new record is in place |
| AuthdRuns.TempIsLeftIff | authd.py:164-181 | a temporary file stays behind iff the process dies between its creation and its rename; an exception removes it |
| AuthdRuns.StepOnDisk | authd.py:364-376 | which events change the two files: a revocation or leave-proxy.sh sets the marker and drops the tokens, an issue after a PAM success or the last step of join-proxy.sh clears the marker, only the issue replaces the tokens |
| AuthdRuns.LeaveLasts | join-proxy.sh:265-272 | the marker stays over every interleaving of requests and scripts, every crash and restart, until an issue completes or a join reaches its last step |
| AuthdRuns.RefusedAfterLeave | authd.py:290-297 | a request checked after a leave, and before the next issue or join completes, is refused at once and never reaches PAM |
| AuthdRuns.CacheRefines | authd.py:307-314 | the daemon's cache is the cache of a well-timed history of puts, gets and clears, so the cache theorems hold of it |
| AuthdRuns.TokensRefine | authd.py:364-374 | the daemon's token file is the token file of a history of issues and revocations |
| AuthdRuns.OkIsJustified | authd.py:290-315 | for every interleaving, each ok reply to authenticate rests on a token in force or a PAM success at most CACHE_TTL old, with access enabled, or on its own PAM success after a check that found access enabled |
| AuthdRuns.TokenInForceIsAccepted | authd.py:298-304 | conversely a token in force is accepted whenever access is enabled |
| AuthdRuns.RevokedTokenIsRefused | authd.py:182-186 | a token that no later issue stored is refused for ever after a completed revocation, or after leave-proxy.sh has removed the token file, also once the user has joined again |
| AuthdRuns.LeaveUndoneIffJoinUnderWay | join-proxy.sh:223-272 | once the marker is set, access can come back without a later issue-token request iff a join that started before waits for its token or holds it and has not ended |
| AuthdRuns.RevokeUndoneIff | authd.py:161-186 | the same for every revocation that set the marker, whether it completes, raises or is killed; a kill ends the waiting requests but not the joins that hold a token |
| AuthdRuns.InterruptedRevokeRevivesToken | authd.py:181-185 | for either file format, a revocation that set the marker lets its token return with the next issue, for the grace, iff it stopped before the unlink |
| AuthdReplies.WhoIsTurnedAway | authd.py:330-379 | a stranger gets -3, another user's name -1, an issue or revocation not by the user -5, an unknown operation -7, all without any effect; capabilities get ok |
| AuthdReplies.IssueComesFromTheUser | authd.py:355-363 | a request waits for PAM to get a token only if it is an issue-token request of the user's own uid and name |
| AuthdReplies.PamAnswerIsPassedOn | authd.py:312-315 | in every run PAM's answer to a waiting authenticate request is replied with exactly its ok and code |
| AuthdReplies.OtherwisePamIsAsked | authd.py:290-312 | with access enabled, a password that is no token and not in the cache goes to PAM and nowhere else |
| AuthdReplies.OtherTokenIsRefused | authd.py:298-304 | a text of the token shape that is not in force is answered -6 without PAM, and nothing changes |
| AuthdReplies.BlockedFileIsReported | authd.py:196-206 | with a first-format digest that reads as a number every check of a token is answered -2 |
| AuthdReplies.AcceptedIsRemembered | authd.py:305-315 | in every run, with access enabled, a password stored after a PAM success at most 60 seconds ago and not cleared since is answered ok from the cache, unless at least 127 other passwords have been stored since |
| AuthdReplies.RefusedIssue | authd.py:363-366 | an issue request that PAM refuses gets PAM's code and changes no file |
| AuthdReplies.GrantedIssue | authd.py:363-369 | an issue that completes replies with exactly the token whose record it stored; access is enabled and the token matches |
| AuthdReplies.AcceptedIssueReplies | authd.py:363-393 | after PAM's yes: the token if all file operations succeeded, -2 after an exception, nothing from a killed process |
| AuthdReplies.TokenOnlyIfGranted | authd.py:363-369 | no other reply carries a token |
| AuthdReplies.RevocationReplies | authd.py:370-376 | a revocation says ok iff all its file operations succeeded, -2 after an exception |
| AuthdReplies.IssuedTokenIsAccepted | authd.py:298-304 | in every run the token that an issue replied with is accepted until it is replaced, dropped or access is disabled |
| TokenText.ShapeIs | authd.py:189-193 | the shape is `pto_` and 43 letters, digits, hyphens or underscores |
| TokenText.GeneratedTokensHaveTheShape | authd.py:217-221 | the URL-safe base64 text of any 32 random bytes, behind the prefix, has that shape |
| Bytes.JoinUndoesSplit | auth_proxy.py:832-833 | splitting at a byte gives separator-free pieces that join to the text again |
| Bytes.SplitUndoesJoin | auth_proxy.py:832-833 | splitting undoes joining separator-free pieces, so the pieces are determined |
| Bytes.SplitPrepend | auth_proxy.py:830-833 | bytes put in front of a text touch only its first line |
| StatsLog.ParseLines | auth_proxy.py:835-843 | blank and undecodable lines are skipped, the others decoded in order |
| StatsLog.LineRowsIs | auth_proxy.py:835-854 | a blank line adds nothing, any other line its core without blanks as decoded, if it can be decoded; the first line is decoded as it stands |
| StatsLog.ForwardIs | auth_proxy.py:830-854 | the reading of lines joined by line breaks is that of the first line and the others |
| StatsLog.ReadStep | auth_proxy.py:826-844 | one more chunk in front extends the rows already read by exactly the newly completed lines |
| StatsLog.ReadBackwards | auth_proxy.py:825-846 | what has been read are exactly the complete lines from the offset where the search stops, as a function of file, chunk size and window |
| StatsLog.IterRecentStats | auth_proxy.py:813-857 | for every content and chunk size: exactly the filter of the forward reading from the row where the search stops; of a log of entries all that the forward reading yields iff no recent row stands before it, and always when timestamps are nondecreasing |
| StatsLog.YieldRecent | auth_proxy.py:855-857 | entries that are recent enough, in order, up to the first that raises |
| StatsLog.EmitIs | auth_proxy.py:855-857 | row by row: an entry is yielded iff its timestamp is at least `since`, and a row that raises ends the reading |
| StatsLog.NothingOlderIsMissed | auth_proxy.py:825-846 | with nondecreasing timestamps stopping at an older row loses nothing |
| StatsLog.SuffixLosesIff | auth_proxy.py:855-857 | starting at a later row loses something iff an earlier row is recent enough |
| StatsLog.ExactIffSettled | auth_proxy.py:813-857 | for a log of entries the reader is exact for every chunk size iff no recent row stands before an old one |
| StatsLog.SmallLogIsExact | auth_proxy.py:820-829 | a log that fits into one chunk is read completely whatever its timestamps |
| StatsLog.RecentRowIsLost | auth_proxy.py:820-846 | for every decoder, recent line, old line and chunk size that holds the old line with two line breaks, a log on which the recent row is lost |
| StatsLog.ForwardIsUniform | auth_proxy.py:847-854 | the specially treated first line is a line like any other if the decoder ignores surrounding blanks |
| Ranking.Accumulate | auth_proxy.py:872-883 | one entry per user, with clamped totals and connection counts of the bag of counted entries |
| Ranking.RankEntries | auth_proxy.py:872-891 | ranks 1..n, strictly ordered by descending bytes and then name, totals equal to the sums over the bag |
| Ranking.RecentDownloadRanking | auth_proxy.py:860-891 | the ranking of exactly the entries that the tail reader yields, or its exception; of the whole log when timestamps are nondecreasing; a window that is not positive raises |
| Ranking.RankingIsDetermined | auth_proxy.py:885-891 | the specification has one solution, and permuting the entries that are read does not change it |
| Ranking.RankingInPlainTerms | auth_proxy.py:872-891 | no row is named "-"; bytes are the sum of the positive counts and connections the number of a user's entries up to and including `end`; every such user has a row; descending bytes, then names |
| Ranking.NameOrderIs | auth_proxy.py:887 | names are ordered by their first difference, and a name comes before its extensions |
| HttpHead.ReadHttpHeaders | auth_proxy.py:582-599 | success iff the first terminator ends within the limit at the granularity of the chunks; line, headers and tail rejoin to exactly the bytes read; each failure has its cause |
| HttpHead.HeadIsChunkIndependent | auth_proxy.py:586-599 | two cuts of one stream give the same request line and headers, and tails that are prefixes of each other |
| HttpHead.HeadBounds | auth_proxy.py:587-594 | a head that ends 4095 bytes below the limit is always read, one that ends above it never |
| HttpHead.JoinUndoesCrLfSplit | auth_proxy.py:597-599 | joining the split lines gives back the head |
| Base64.DecodeUndoesEncode | status_proxy.py:91 | the lenient decoder gives back every byte string that was encoded (section 4 of RFC 4648) |
| Base64.DigitsAreTheAlphabet | status_proxy.py:91 | the 64 digits are those of table 1 of RFC 4648 |
| Base64.Vectors | status_proxy.py:91 | the test vectors of section 10 of RFC 4648, encoded |
| Base64.JunkIsSkipped | auth_proxy.py:670 | bytes outside the alphabet change nothing |
| Base64.WholeQuadsOnly | auth_proxy.py:670 | a text with digits that do not make whole groups is refused |
| Numerals.ParseIntIff | auth_proxy.py:652-659 | a text is read as a number iff it is a decimal numeral of that value with blanks around, a sign or none, and underscores between digits only |
| Numerals.ReadUndoesPrint | auth_proxy.py:652-659 | the decimal text of every number is read back as that number |
| ConnectRequest.CollectHeaders | auth_proxy.py:634-640 | the dict holds, for every key, the value of the last line with that key |
| ConnectRequest.ParseRequest | auth_proxy.py:624-675 | the imperative parser, with its dict of headers, computes the parsing function whose meaning the next rows state |
| ConnectRequest.WhichRequestsFail | auth_proxy.py:625-659 | bad request iff fewer than three words, unsupported method iff the first is not CONNECT in any letter case, bad target iff no numeral stands behind a last colon |
| ConnectRequest.WhatRequestsSay | auth_proxy.py:647-675 | otherwise host and port are those before and behind the last colon of the target, and the Proxy-Authorization header decides between missing, undecodable, and user and password |
| ConnectRequest.BasicInAnyCase | auth_proxy.py:662-663 | the scheme is Basic in any letter case, and a blank |
| ConnectRequest.CredentialsIff | auth_proxy.py:669-675 | a Basic header means a user and password iff it is ASCII and decodes to them with a colon between, or to a user without colon; otherwise it is undecodable |
| ConnectRequest.CredentialsBack | auth_proxy.py:663-671 | a printed Basic credential is read back as the same user and password, for a user without a colon and any password |
| ConnectRequest.PrintedPort | status_proxy.py:85-97 | the decimal text of any port is a port text of the next two rows |
| ConnectRequest.ParseUndoesPrint | status_proxy.py:90-97 | parsing the printed lines gives back user, password, host and the port that the target's decimal text stands for |
| ConnectRequest.RequestRoundTrip | status_proxy.py:85-104 | the same across the network, for every chunking and any later bytes, which are all kept |
| ConnectRequest.PrintedRequestFits | auth_proxy.py:582-599 | a printed request with room for one more read below the limit is always accepted by the head reader |
| Dotted.AtonUndoesNtoa | auth_proxy.py:402-403 | the dotted text of an IPv4 address is parsed back to its four bytes |
| Dotted.NtoaIsDecimal | auth_proxy.py:402-403 | the dotted text consists of the decimal texts of the four bytes |
| Socks.ReadAddr | auth_proxy.py:401-411 | an address is found iff the bytes start with a well-formed one of the type, with its size and the host those bytes stand for; an unknown type is told from a short stream |
| Socks.Reader.ReadExactly | auth_proxy.py:386-393 | all n bytes in order, or nothing when the stream falls short |
| Socks.Handler.Handle | auth_proxy.py:414-545 | the session performs its script, whose messages the SocksAnswers rows state, or a beginning of it when a drain raises; a recorded verdict names a failure that occurred, timeout needs a read or an upstream drain that timed out, and ok holds iff the relay started |
| Socks.Handler.ReadMethods | auth_proxy.py:424-429 | the methods of a complete version-5 greeting |
| Socks.Handler.ReadLogin | auth_proxy.py:438-449 | user and password of a complete version-1 login message |
| Socks.Handler.ReadAddress | auth_proxy.py:401-411 | the incremental reads agree with the address parser and leave the stream behind the address |
| Socks.Handler.HandleReply | auth_proxy.py:521-545 | the upstream reply is passed on, and the relay starts after a complete success only, with both streams right behind the handshake |
| Socks.Handler.Serve | auth_proxy.py:414-569 | for every schedule of the relay: what it sends upstream and to the client are prefixes of what the two sides send behind the handshake, bytes_up and bytes_down are their lengths, and without a tunnel both are empty |
| SocksFacts.AddressIsForwarded | auth_proxy.py:509-519 | address and port sent upstream are byte-identical to the client's |
| SocksFacts.SessionOfEncoded | auth_proxy.py:424-520 | for every well-formed handshake of RFC 1928 and RFC 1929 the session is the tunnel of exactly its fields |
| SocksFacts.TunnelStartsBehind | auth_proxy.py:424-482 | the tunnel starts with the first byte behind the encoded handshake |
| SocksFacts.SessionSound | auth_proxy.py:424-482 | conversely the whitelist is reached only by a stream that starts with such a handshake |
| SocksFacts.UpstreamOnlyAfterPolicy | auth_proxy.py:451-520 | for every client stream the upstream is dialled only after group, PAM, the 01 00 reply and the whitelist on the parsed host, in that order, with the client's own address bytes |
| SocksFacts.DialsIffPermitted | auth_proxy.py:424-497 | the upstream is dialled for exactly those client streams that start with a complete handshake of a member with an accepted password and an allowed host |
| SocksFacts.SocksRefinesPolicy | auth_proxy.py:448-520 | a complete handshake leads to exactly the decisions and upstream bytes of the policy |
| SocksFacts.ReplyIsPassedOn | auth_proxy.py:521-540 | what the client gets of the reply is a prefix of it, all of it if it is complete; the tunnel starts iff it is complete and reports success |
| SocksAnswers.NoPasswordOffered | auth_proxy.py:427-430 | a greeting without method 2 is answered 05 FF and nothing else happens |
| SocksAnswers.StrangerIsRefused | auth_proxy.py:449-454 | who is not in the group is answered 05 02 and then 01 01 |
| SocksAnswers.WrongPasswordIsRefused | auth_proxy.py:457-463 | a password that PAM refuses is answered 01 01 |
| SocksAnswers.OtherCommandIsRefused | auth_proxy.py:468-473 | after 01 00, a command that is not CONNECT of version 5 is answered with the ten bytes of code 7 |
| SocksAnswers.OtherAddressTypeIsRefused | auth_proxy.py:475-480 | an address type other than 1, 3 and 4 is answered with code 8 |
| SocksAnswers.DeniedHostIsRefused | auth_proxy.py:485-489 | a host off the whitelist is answered with code 2 and nothing is dialled |
| SocksAnswers.UnreachableIsReported | auth_proxy.py:493-502 | an upstream that cannot be reached is reported with code 1 |
| SocksAnswers.UnwillingIsReported | auth_proxy.py:504-510 | an upstream that does not accept the greeting is reported with code 1 |
| SocksAnswers.RequestIsForwarded | auth_proxy.py:509-540 | a willing upstream gets 05 01 00, then the client's own address type, address and port, and its reply is passed on |
| SocksAnswers.UnplainNameIsNotSent | auth_proxy.py:509-519 | a name with a byte beyond ASCII is not sent upstream |
| SocksAnswers.EveryMessageIsKnown | auth_proxy.py:414-545 | whatever a client sends, each message to it is one of eight literal ones or a piece of the upstream's reply |
| SocksAnswers.OwnMessagesNeverSucceed | auth_proxy.py:414-545 | none of the eight is a reply with code 0, so success comes from the upstream only |
| HttpSession.Handler.Handle | auth_proxy.py:602-783 | for every schedule of the relay, also one that breaks off: the session performs its script and ends with a verdict that occurred; the bytes tunnelled are a prefix of those behind the head, bytes_up is their number, and the client gets bytes_down bytes, a prefix of what follows the upstream reply |
| HttpSession.Handler.ReadReply | auth_proxy.py:727-735 | the reply is read completely for the known address types, its code is found, and the stream is left behind it |
| Relay.ExecuteForwards | auth_proxy.py:545 | a relay that goes on with given byte counters adds prefixes of both streams and exactly their lengths |
| HttpSession.Handler.BeginTunnel | auth_proxy.py:744-755 | the 200 answer first, then the payload that came with the head, counted also when its drain raises |
| HttpSession.ScriptTunnels | auth_proxy.py:752-755 | a script that starts a tunnel tunnels exactly the early payload |
| HttpAnswers.MalformedIsAnswered | auth_proxy.py:625-675 | 400 for a malformed line, target or credential, 405 for another method, 407 without credential, and no check or dial |
| HttpAnswers.OtherMethodIsRefused | auth_proxy.py:640-645 | a request line with another method is answered 405 and never dialled |
| HttpAnswers.StrangerIsRefused | auth_proxy.py:677-684 | who is not in the group is answered 407 before PAM is asked |
| HttpAnswers.WrongPasswordIsRefused | auth_proxy.py:686-694 | a password that PAM refuses is answered 407 |
| HttpAnswers.DeniedHostIsRefused | auth_proxy.py:696-702 | a host off the whitelist is answered 403 |
| HttpAnswers.UnreachableIsReported | auth_proxy.py:704-713 | an upstream that cannot be reached is answered 502 |
| HttpAnswers.UnwillingIsReported | auth_proxy.py:715-721 | an upstream that does not accept the greeting is answered 502 |
| HttpAnswers.RequestIsSent | auth_proxy.py:715-725 | a willing upstream gets 05 01 00 03, the host with its length, and the port high byte first |
| HttpAnswers.ReplyDecides | auth_proxy.py:727-757 | a complete reply of code 0 is answered 200, then the relay and the early payload; any other code 502; an incomplete one nothing |
| HttpAnswers.TunnelIff | auth_proxy.py:677-757 | a tunnel starts, and 200 is answered, iff the policy permits the CONNECT, its target fits a SOCKS request and the upstream grants it |
| FrontEnds.HttpRefinesPolicy | auth_proxy.py:677-725 | a CONNECT whose target fits into a SOCKS request leads to exactly the decisions and upstream bytes of the policy |
| FrontEnds.UnsendableIsNotSent | auth_proxy.py:723-725 | a host over 255 bytes, a non-ASCII host or a port out of range sends no request upstream and starts no tunnel |
| FrontEnds.HttpDialsAfterPolicy | auth_proxy.py:677-713 | the upstream is dialled only for a parsed CONNECT whose user is a member, passed PAM and asks for an allowed host, in that order |
| FrontEnds.PermittedConnectIsDialled | auth_proxy.py:677-713 | conversely every parsed CONNECT that the policy permits is dialled |
| FrontEnds.FrontEndsAgree | auth_proxy.py:448-520 | for the same user, password, ASCII domain and port both front ends take the same decisions and send identical upstream bytes |
| FrontEnds.ProbeIsJudgedByPolicy | status_proxy.py:85-104 | the readiness probe's printed request is judged by the policy for its own fields, whatever the chunks |
| Relay.RunPipe | auth_proxy.py:331-356 | the loop writes exactly the bytes its reads brought, a prefix of its input, counts them, and closes iff a writable end of file was read, once and after the whole input |
| Relay.WhatIsForwarded | auth_proxy.py:331-356 | what a direction has written are all the bytes read, and it has closed iff it read a writable end of file |
| Relay.AdvanceForwards | auth_proxy.py:331-356 | every step of a direction keeps: a prefix is out, the counter grew by its length, one end of file at most and only after the whole input |
| Relay.StepKeepsSafe | auth_proxy.py:359-383 | every step of tasks or controller keeps the safety of both directions and finishes both before the return |
| Relay.StepKeepsTime | auth_proxy.py:364-383 | every step keeps the deadlines |
| Relay.RelayForwards | auth_proxy.py:331-383 | in every schedule each output is a prefix of its input, counted exactly, closed once at most after all of it, and both tasks are done on return |
| Relay.RelayWritesAllItReads | auth_proxy.py:331-383 | in every schedule each side has written exactly the bytes that its reads brought |
| Relay.RelayPassesEnds | auth_proxy.py:348-353 | in every schedule a side has closed, once, iff it read a writable end of file |
| Relay.RelayIsBounded | auth_proxy.py:364-383 | CLOSE_TIMEOUT plus RELAY_HALF_CLOSE_TIMEOUT after the first end of file the relay has returned |
| Relay.RelayEndsAfterReset | auth_proxy.py:364-383 | RELAY_HALF_CLOSE_TIMEOUT after a first direction was seen to finish, by a reset too, the relay has returned |
| Relay.RunsAreExecuted | auth_proxy.py:364-369 | every schedule is the execution of its own steps, so the `steps` of the two sessions cover all schedules |
| Relay.RelayIsPatient | auth_proxy.py:371-378 | no direction is cut off before the other has been finished for the whole half-close timeout, unless the relay itself is cancelled |
| Relay.NeverStuck | auth_proxy.py:359-383 | in every reachable state what is due can act, or time can pass |
| Relay.TimeGoesOn | auth_proxy.py:359-383 | from every reachable state time can pass after at most five steps, so the bound on the relay is not empty |
| Whitelist.StarMatchesSuffix | auth_proxy.py:276 | a star in front of a literal matches exactly the names that end in it |
| Whitelist.AllowedIffCovered | auth_proxy.py:267-276 | for any list of names and `*.` entries a host passes iff it is a loopback literal, or no IP literal and equal to or below an entry |
| Whitelist.SpellingIsIrrelevant | auth_proxy.py:268 | letter case and trailing dots never change the decision |
| Whitelist.NormalIs | auth_proxy.py:268 | the name judged is the lower-case one without trailing points, and a plain name is judged as it is |
| Whitelist.StarMatchesAnything | auth_proxy.py:276 | a star stands for any text |
| Whitelist.OneByteMatches | auth_proxy.py:276 | a question mark stands for one byte, any other byte for itself |
| RolloutManifest.Parse | modules/repo_auto_update/manifest.py:11-36 | what the updater relies on: a target is empty or a full commit id, and an enabled target has a positive sequence |
| RolloutManifest.ParsedIffSaid | modules/repo_auto_update/manifest.py:11-36 | the parser accepts exactly the documents that spell out a well-formed manifest, and returns that manifest |
| RolloutManifest.UpdaterReadsBack | modules/repo_auto_update/manifest.py:49-53 | the five lines printed by the parser are read by the updater as the same manifest, and its sequence never as octal |
| Rollout.Updater.AtomicWrite | modules/repo_auto_update/updater.sh:90-96 | a control file changes as a whole or, after a kill, not at all |
| Rollout.Updater.Run | modules/repo_auto_update/updater.sh:149-213 | the checks and writes of the script in its order, killed between any two writes; the next rows say what it may install |
| Rollout.InstalledIffAccepted | modules/repo_auto_update/updater.sh:149-213 | the target is applied and staged iff the manifest is enabled and newer, its target is present, on the branch and no ancestor or an allowed rollback, and verification and application succeed |
| Rollout.AllowedRollbackInstalls | modules/repo_auto_update/updater.sh:186-194 | a rollback that the manifest allows is installed |
| Rollout.AppliedWereVerified | modules/repo_auto_update/updater.sh:198-206 | over every series of runs, each target that was applied had been accepted, verification included, in a run for it |
| Rollout.InstalledWereVerified | modules/repo_auto_update/updater.sh:198-211 | over every series of runs, a revision that was not there from the start was accepted and applied successfully in a run for it |
| Rollout.StepIsMonotone | modules/repo_auto_update/updater.sh:160-213 | the recorded sequence never decreases, a new revision has a strictly larger one, and without allow_rollback its target is no ancestor of the revision it replaces |
| Rollout.SequenceNeverDecreases | modules/repo_auto_update/updater.sh:160-213 | the same for the sequence over every series of runs with crashes |
| Rollout.RevisionsAdvance | modules/repo_auto_update/updater.sh:186-213 | when the commits present in each fetch are linearly ordered, installed revisions strictly advance until a rollback is allowed |
| Rollout.RerunFinishes | modules/repo_auto_update/updater.sh:165-171 | once the revision is written, a re-run finishes the sequence write and never verifies or applies again; the pending marker stays as it was |
| Rollout.RerunIsIdempotent | modules/repo_auto_update/updater.sh:165-171 | after a complete run a re-run changes no control file |
| Rollout.NextManifestNeeds | modules/repo_auto_update/updater.sh:172-177 | exactly which sequence a later manifest needs after a run that was or was not killed between its first two writes |
| Rollout.InstalledSequencesIncrease | modules/repo_auto_update/updater.sh:172-213 | if no run is killed there, the sequences of successive installations strictly increase |
| Rollout.TornRunAllowsOlderManifest | modules/repo_auto_update/updater.sh:211-212 | a concrete run, with such a kill, in which an older manifest installs another target |
| ShellBlock.LinesAreTexts | configure-shell.sh:13-16 | a line read as marker or other text prints as the same text, and the four markers are distinct |
| ShellBlock.ShellRc.Awk | configure-shell.sh:127-132 | the loop computes the filter |
| ShellBlock.ShellRc.ConfigureShell | configure-shell.sh:62-152 | a refused file is unchanged, an accepted one is the filtered file plus the block, and a backup is made iff something changed |
| ShellBlock.ShellRc.RemoveShellBlock | leave-proxy.sh:60-83 | a refused file or one without an opening marker is unchanged, any other is filtered |
| ShellBlock.WhatConfigureAppends | configure-shell.sh:133-138 | the four lines behind the filtered file, as texts |
| ShellBlock.BlocksAcceptedIff | configure-shell.sh:62-70 | files made of closed blocks are accepted iff there is at most one of each kind |
| ShellBlock.UnbalancedIsRefused | configure-shell.sh:62-70 | unequal numbers of opening and closing markers are refused by both scripts |
| ShellBlock.FilterUndoesBlock | configure-shell.sh:127-138 | filtering the filtered file plus the block gives back the filtered file, for every file |
| ShellBlock.ConfigureIsIdempotent | configure-shell.sh:62-152 | a second accepted run changes nothing |
| ShellBlock.RerunAcceptedIff | configure-shell.sh:66-70 | both scripts accept a configured file iff the markers of the original took turns |
| ShellBlock.FilterKeepsOutside | leave-proxy.sh:75-81 | the filter keeps exactly the lines outside the blocks, in order |
| ShellBlock.LeaveUndoesConfigure | leave-proxy.sh:60-83 | for ordered, disjoint blocks both scripts are accepted, configure is idempotent, and leave gives back exactly the lines outside the blocks |
| ShellBlock.MisorderedMarkersLoseLines | configure-shell.sh:62-70 | a closing marker before an opening one is accepted once, loses the lines behind, and is refused afterwards |
| ApplyAdapter.Adapter.BackUp | scripts/auto-update-adapter.sh:49-58 | the backup holds the application and, for each of the six units, its content or its absence |
| ApplyAdapter.Adapter.RestoreUnits | scripts/auto-update-adapter.sh:68-77 | every unit whose command succeeds is as saved, absent ones included; the others are untouched and the failure is reported |
| ApplyAdapter.Adapter.RestorePrevious | scripts/auto-update-adapter.sh:61-78 | a failed move leaves everything as it was, otherwise the application is the saved one |
| ApplyAdapter.Adapter.Run | scripts/auto-update-adapter.sh:49-100 | success keeps the installation; failure after any prefix, with a broken write that leaves anything or nothing at its path, is undone when the restore commands succeed |
| ApplyAdapter.InstallerUnits | scripts/install.sh:174-216 | under these flags the installer writes all six saved units and no other |
| ApplyAdapter.SuccessInstallsUnits | scripts/install.sh:174-216 | after a successful apply each of the six units has the content that the release holds for it |
| ApplyAdapter.SuccessInstallsFiles | scripts/install.sh:106-133 | and each application file likewise |
| ApplyAdapter.FailedApplyIsUndone | scripts/auto-update-adapter.sh:38-100 | a failed apply changes neither the application tree nor any unit, wherever the installer broke off |
| ApplyAdapter.OutsideRestoredIff | scripts/install.sh:100-104 | after a failed and restored apply the paths outside are as before iff the installer stopped ahead of every directory if one was missing, of the link if it is to be set, of the updater configuration if there is none, and a broken write changed nothing |
| ApplyAdapter.DirectoryIsLeft | scripts/install.sh:103-104 | an installer that fails at its first file leaves a directory that was missing |
| ApplyAdapter.LinkIsLeft | scripts/install.sh:134-137 | in every world whose link is not right yet, an installer that breaks off right behind the link leaves it, although everything else is restored |

## Left out

- Sockets, event-loop internals, systemd, git, iptables, PAM, flock and account lookups: each is an answer or an abstract step.
- File permissions, ownership and path-safety checks, and leftovers of temporary files outside authd's token directory.
- Cryptographic strength, randomness and constant-time comparison.
- Log lines, JSON and Markdown reports, anomaly alerts, byte formatting and the onboarding dialogue: nothing in them needs a harder proof.
- Texts in the token file that are neither a record nor a digest.
- Token files that cannot be opened, that authd did not write, or whose JSON has other field types: the first are refused by the code, the others would only add error branches.
- The wording of PAM's reason and the JSON text of authd's replies.
- UTF-8 and ASCII decoding with replacement characters, and Unicode letter case or blanks: texts are their bytes.
- Text forms of IPv6 addresses: a V6 address goes in and out as its 16 bytes.
- Socks.Handler.Handle: an act whose drain failed is in the trace although its bytes may not have left the buffer.
- HttpSession.Handler.Handle: the texts of responses are not modelled, only their status; the 504 answer after a timeout is the field `timedOut`, not an act; `proto_err:` and `exc:` verdicts are one. What the relay hands to the client is a field, so its order relative to what it sends upstream is not in the list of acts.
- HttpSession.Handler.ReadReply: replies of an address type other than 1, 3 and 4 are taken as the code takes them, four bytes long; no claim is made about what follows them.
- ConnectRequest.ParseRequest: Python's limit on the number of digits of an integer is not modelled.
- ConnectRequest.RequestRoundTrip: taking the URL apart and reading the status line of the response in `authenticated_connect` are not modelled.
- Relay.RelayIsBounded: assumes that a cancelled task ends promptly and that timers are exact; a second cancellation while the relay cleans up is not modelled.
- Whitelist.AllowedIffCovered: bracket expressions of `fnmatch` are not modelled, and what counts as an IP literal is a parameter. The sessions take the whitelist, like group membership, as a function of the environment.
- Rollout.Updater.Run: configuration checks, lock, clone and checkout are one flag; sequences are natural numbers, without bash's overflow and octal notation; what the verify and apply adapters do is their result.
- Rollout.RevisionsAdvance: on branching history the code compares only with the revision it replaces, so the long-run claim is for linear history.
- ShellBlock.ShellRc.ConfigureShell: the credential and env files, symbolic links, and a last line without a line break are not modelled.
- AuthdRuns.RevokedTokenIsRefused: the scripts write between two steps of the daemon; a leave script that removes the token file while an issue is between reading and replacing it is not modelled. Nor is a join against a daemon too old to issue tokens.
- The credential files that the scripts write and remove.
- ApplyAdapter.Adapter.Run: a backup that fails stops the script before anything is changed and is not modelled; neither are an adapter killed before its trap runs, the directories inside the application, temporary files, and the daemon-reload, whose failure the script also reports.
- Ranking.RecentDownloadRanking: users are strings and timestamps integers; other JSON types in these fields are left to the decoder parameter.
