# What clp-addons must be able to undo

clp-addons edits text and state that belong to CloudPanel: Nginx vhosts, the panel's own vhost, Twig templates, rows of the
site table, DNS records. It reads others' formats as well: PHP session files, SPF records, job logs. This project models
those edits and readers in Dafny and proves what the program relies on: an insertion keeps the parse of a vhost, taking it
out again gives back the text, a failed step leaves files, rows and the running Nginx as they were, a merged record means
what its sources mean, and a protocol of several processes keeps its promise in every interleaving.

The files come in pairs: one that models a source file (functions for what is computed, methods and classes where the
source loops and updates in place, each proved equal to its function or to its effect on the old state) and one with the
proofs about it.

| file | what it is about |
|---|---|
| `Text.dfy` | outcomes, bytes, and searching in strings |
| `NginxConfig.dfy`, `NginxTokens.dfy`, `NginxPrinted.dfy` | the tokenizer and parser of vhosts; the tokens and configurations it reads, said by a printer |
| `NginxInsertion.dfy` | inserting a directive behind a server block's brace |
| `MaintenanceVhosts.dfy`, `MaintenanceProofs.dfy`, `MaintenanceStaging.dfy` | the maintenance include: on, off, staged over all sites, and the report of gaps |
| `SiteVhost.dfy`, `SiteVhostProofs.dfy`, `SiteVhostCases.dfy` | placeholder values learned from a rendered vhost, and rendering; the special case at two inputs |
| `Templates.dfy`, `TemplatesProofs.dfy`, `TemplatesRuns.dfy`, `TemplatesPlaces.dfy` | marked blocks of several addons in one shared template, and where each stands |
| `NginxTransaction.dfy`, `CloudflareIps.dfy` | the transaction over files, rows, test and reload under any faults; the policy around it |
| `CloudflareVhost.dfy`, `CloudflareVhostProofs.dfy` | the Cloudflare rules of one vhost, on and off |
| `NginxProxy.dfy`, `NginxProxyProofs.dfy`, `NginxProxyCases.dfy` | the proxy location in CloudPanel's own vhost; a vhost that does not come back |
| `NginxNoise.dfy`, `NginxProxyShapes.dfy` | what masking blanks there, and what the expressions look for |
| `PhpScanner.dfy`, `PhpProofs.dfy` | PHP's serialization format and sessions |
| `Spf.dfy`, `SpfProofs.dfy`, `SpfTerms.dfy`, `SpfLookups.dfy` | SPF merging (RFC 7208): its meaning, its terms, its limit of lookups |
| `Txt.dfy`, `Pages.dfy` | quoted TXT values, paged reads |
| `JobLog.dfy`, `ManagerJobs.dfy`, `NewSites.dfy`, `Gateway.dfy` | the backward log tail, one manager job at a time, the new-site watcher, byte streams |

Commands, clocks, locks, the disk and the network are oracles: a function from the number of the operation to whether it
fails, or an event that may come at any time. Every theorem is for all of them.

## What turned out not to hold as promised

Each of these is stated with the exact condition under which the promise does hold, and met at a concrete input or run.

- A learned placeholder map need not be the only one: when the special case for `nginx_access_log` is taken, another map can
  render the template to the same text (`SiteVhostCases.SpecialCaseMet`). Where neither that placeholder nor the one behind it
  stands twice, the map is the only one exactly when the special case is not taken (`SiteVhostProofs.OnlyUnlessSpecial`);
  where the placeholder repeats it can be the only one all the same (`SiteVhostCases.RepeatedLogIsOnly`).
- A committed transaction has every staged content on disk exactly when no path was staged with two different contents, one
  of which may be what was there already (`NginxTransaction.StagedExactly`, `NginxTransaction.LastChangeLost`).
- Turning the panel proxy on and off gives back the vhost exactly when no bare carriage return stands right before the brace
  that closes the 8443 block (`NginxProxyProofs.ProxyRoundTrip`, `NginxProxyCases.ReturnLost`).
- A job log's tail is its last `n` lines exactly when the file fits in 1 MiB or its last 1 MiB holds `n` newlines, one more
  when the file ends with one (`JobLog.ShownExactly`, `JobLog.LongLineCut`).
- One manager job at a time is kept exactly when the time a started unit may stay out of sight and the time a look may take
  between reading the unit and judging the record's age are less than six minutes together (`ManagerJobs.ExactlyWhenInTime`).
  The program waits five, but rounds the age down before it compares; and a unit that comes into sight between the two
  readings of one look is not seen by it, so a slow look alone can let a second job begin (`ManagerJobs.TwoAtATime`).
- A vhost's Cloudflare rules turned on and off give back the vhost exactly when they were off and the access log's line ends
  with a plain line feed: with CR LF the carriage return is lost, at the end of the text a line break is gained
  (`CloudflareVhostProofs.OffAfterOn`, `CloudflareVhostProofs.ReturnLost`).
- A gateway stream's first line is its request exactly when the socket took the whole request line in its first write, or what
  follows happens to make it up; how much it took is not looked at (`Gateway.FirstLineIsRequest`, `Gateway.RequestRunsOn`).
- A vhost written in place is not seen to be in flight when its directory has not changed for an hour
  (`NewSites.TouchedIsMissed`); within the hour every recent vhost without a row is (`NewSites.NoneMissed`).
- A site deleted and made again between the reading of the rows and the look at the vhosts is missed by the new-site watcher
  until its next wake (`NewSites.RemadeIsMissed`, in a run: `NewSites.RemadeRun`); `NewSites.NoneMissed` says for which sites
  this cannot happen.

## Model

| member | source | states |
|---|---|---|
| NginxConfig.NginxServers | cli/nginx-config.ts:14-50 | The token loop, which updates the open blocks, gives the blocks or the error of the run over the tokens; which texts those are, and which blocks, is NginxPrinted.ServersExactly |
| NginxTokens.TokenReads | cli/nginx-config.ts:15 | White space, a comment, a placeholder, a quoted string, a word of characters, escapes and variables, or a mark, in front of text that cannot lengthen it, is what the token expression matches there |
| NginxTokens.TokenWritten | cli/nginx-config.ts:15 | Whatever the token expression matches is the text of such a token, and it could take no more |
| NginxPrinted.WrittenIsRead | cli/nginx-config.ts:14-50 | Of a configuration as it is written (words plain or quoted, nested blocks, statements, `{{server_name}}` as its own directive, comments and blanks) exactly the top-level server blocks are reported, with the written words, the nesting and every offset |
| NginxPrinted.ReadIsWritten | cli/nginx-config.ts:14-50 | Every text the parser accepts is a configuration as it is written |
| NginxPrinted.ServersExactly | cli/nginx-config.ts:14-50 | Both directions at once: which texts are accepted, and which blocks are reported of them |
| NginxPrinted.StrayBrace | cli/nginx-config.ts:36 | A brace behind a whole configuration makes the vhost unbalanced, whatever follows |
| NginxPrinted.Unfinished | cli/nginx-config.ts:48 | Words without an end make it incomplete |
| NginxPrinted.Unclosed | cli/nginx-config.ts:48 | So does a block without an end |
| NginxInsertion.TokenLocal | cli/nginx-config.ts:15 | Whichever alternative of the token expression matches in front of a brace matches the same characters after text without a closing brace is put behind the brace |
| NginxInsertion.RunBefore | cli/nginx-config.ts:20-47 | The parser reaches the brace in one and the same state whatever such text follows it |
| NginxInsertion.RunBehind | cli/nginx-config.ts:20-47 | Behind the insertion the parser repeats its steps with every later offset moved |
| NginxInsertion.ServerOpens | cli/nginx-config.ts:29-39 | Every server block found was opened by a brace token without a dollar sign before it |
| NginxInsertion.OpensDistinct | cli/nginx-config.ts:29-33 | No two blocks, at any depth, open at the same offset |
| NginxInsertion.InsertDirective | cli/nginx-config.ts:14-50 | Text that reads as one directive, put behind a server block's brace, makes it that block's first directive and otherwise only moves offsets: same words, same nesting |
| MaintenanceVhosts.StageMaintenanceVhosts | cli/maintenance-vhosts.ts:56-86 | After the loop every row and vhost is what its own transformation gives, or untouched when either part of the site cannot take it, no other vhost changed, and only vhosts that change are written |
| MaintenanceProofs.IncludeIsDirective | cli/maintenance-vhosts.ts:39-40 | The inserted lines read as exactly one `include <path>` directive |
| MaintenanceProofs.IncludeAtText | cli/maintenance-vhosts.ts:11 | The removal expression matches exactly the inserted lines, wherever they stand |
| MaintenanceProofs.CleanInserted | cli/maintenance-vhosts.ts:34-41 | Removing after inserting gives back the text, with LF or CRLF line ends |
| MaintenanceProofs.ServingMoved | cli/maintenance-vhosts.ts:13-22 | The serving block chosen after an insertion is the one chosen before it, moved |
| MaintenanceProofs.EnabledKeepsParse | cli/maintenance-vhosts.ts:33-42 | Turning the include on: the parse of the result is the parse of the clean text with the include first in the serving block, which did not include it before |
| MaintenanceProofs.LastTransformWins | cli/maintenance-vhosts.ts:33-42 | On and off after each other give what the last one alone gives, errors included: off undoes on, and repeating changes nothing |
| MaintenanceProofs.OffRestores | cli/maintenance-vhosts.ts:33-42 | Off after on gives back a text without markers, byte for byte |
| MaintenanceProofs.IncludedOccurs | cli/maintenance-vhosts.ts:29-31 | A block that includes a path has that path in its text |
| MaintenanceProofs.EnabledIsCovered | cli/maintenance-vhosts.ts:105-110 | A vhost the include was turned on in passes the coverage test, with and without the global settings |
| MaintenanceProofs.StagedHasNoGap | cli/maintenance-vhosts.ts:56-112 | A site whose template and vhost were staged and name no global_settings is never reported as a gap |
| MaintenanceProofs.NoGapAfter | cli/maintenance-vhosts.ts:56-112 | After all sites were staged and the vhosts written, status reports no gap for any site that could be staged and names no global settings, whatever became of the others |
| MaintenanceStaging.ServingExactly | cli/maintenance-vhosts.ts:13-22 | Which block serves a domain: the only one that names it or leaves the name to CloudPanel, redirects nowhere and listens on port 8080, or the only one that does so but for the port when none listens on it |
| MaintenanceStaging.IncludeAtExactly | cli/maintenance-vhosts.ts:11 | The removal expression matches exactly the lines of an include, however each is indented and ended |
| MaintenanceStaging.CleanMeans | cli/maintenance-vhosts.ts:34 | The first such lines are taken out, and cleaning goes on behind them |
| MaintenanceStaging.CleanStays | cli/maintenance-vhosts.ts:34 | A text in which none begins stays as it is |
| MaintenanceStaging.TransformExactly | cli/maintenance-vhosts.ts:33-42 | When a text can take the include or lose it, and that losing it, or having opted out, leaves the clean text |
| MaintenanceStaging.LineEndsKept | cli/maintenance-vhosts.ts:39-41 | The include takes the line ends of its text: one with carriage returns throughout keeps them throughout, one without gets none |
| MaintenanceStaging.StagedExactly | cli/maintenance-vhosts.ts:60-85 | Stored template and vhost of a site are both transformed, exactly when the domain is valid and both can be, and otherwise neither is |
| MaintenanceStaging.OffUndoesOn | cli/maintenance-vhosts.ts:56-86 | Staging every site on, writing, and staging every site off gives back every row and every vhost when none held a mark, whichever sites could take the include |
| MaintenanceStaging.GapExactly | cli/maintenance-vhosts.ts:95-112 | Each gap is reported exactly for its reason, and none exactly when vhost and template both have a serving block that runs the check |
| SiteVhost.SplitTemplate | cli/site-vhost.ts:25-39 | The loop over `rest` gives the literals and keys of the template, or why it has none |
| SiteVhost.PlaceholderParts | cli/site-vhost.ts:25-39 | A placeholder that is found and what is around it make up the text, and its key is a valid one |
| SiteVhost.MatchForward | cli/site-vhost.ts:46-73 | The forward loop gives the leftmost matching, the special case included |
| SiteVhost.MatchBackward | cli/site-vhost.ts:75-99 | The backward loop gives the rightmost matching |
| SiteVhost.LearnVhostMapContent | cli/site-vhost.ts:22-107 | The whole of learning: both matchings and their comparison |
| SiteVhost.RenderVhostBody | cli/site-vhost.ts:109-125 | The rendering loop |
| SiteVhostProofs.ForwardLeftmost | cli/site-vhost.ts:48-73 | When any filling exists the forward loop finds one, and none leaves more text behind any of its values |
| SiteVhostProofs.BackwardRightmost | cli/site-vhost.ts:76-99 | When any filling exists the backward loop finds one, and none leaves more text before any of its values |
| SiteVhostProofs.Sandwich | cli/site-vhost.ts:101-105 | Leftmost and rightmost agreeing leaves no other filling |
| SiteVhostProofs.LearnedExactly | cli/site-vhost.ts:46-106 | Outside the special case a map is learned exactly when the keys are kept apart and there is one filling, also allowing text ahead of the first literal, and the map assigns it |
| SiteVhostProofs.RenderMeans | cli/site-vhost.ts:109-125 | Rendering succeeds exactly when every key is mapped, and gives the literals with the values between them |
| SiteVhostProofs.LearnThenRender | cli/site-vhost.ts:22-125 | Rendering with a learned map gives the text, or the text less the one line feed it ends with, special case included |
| SiteVhostProofs.NewlineIgnored | cli/site-vhost.ts:23 | One line feed at the end of the rendered vhost makes no difference to what is learned |
| SiteVhostProofs.SplitExactly | cli/site-vhost.ts:25-39 | A template is cut exactly into the literals and valid keys it is written with, where no placeholder begins sooner |
| SiteVhostProofs.LearnedIsOnly | cli/site-vhost.ts:46-106 | Every map that renders the template to the text agrees with the learned one |
| SiteVhostProofs.SpecialCaseIsNotOnly | cli/site-vhost.ts:58-61 | In the special case another map renders to the same text, when neither the access log's placeholder nor the one behind it repeats |
| SiteVhostProofs.OnlyUnlessSpecial | cli/site-vhost.ts:58-61 | For a template that repeats neither of those two placeholders, whatever others it repeats, a learned map is the only one exactly when the special case is not taken |
| SiteVhostCases.SpecialCaseMet | cli/site-vhost.ts:46-106 | A template and a vhost on which the special case is taken, the map that is learned, and another map that renders the same vhost |
| SiteVhostCases.RepeatedLogIsOnly | cli/site-vhost.ts:46-106 | With the access log standing twice the special case can be taken and the learned map still be the only one |
| Templates.TemplateStore.RenderText | cli/inject.ts:247-287 | The two sorted passes over the injections give the text and statuses that placing them in order gives; where that puts each block is TemplatesPlaces.BlocksStand |
| Templates.TemplateStore.RenderFile | cli/inject.ts:212-302 | One file and its snapshot become what the model says, every other file and snapshot stays, and `changed` tells whether the file did |
| TemplatesPlaces.BlocksStand | cli/inject.ts:247-287 | The rendered text is the pristine one with blocks at offsets of it: each in front of its anchorBefore, or behind its anchorAfter, at the first place of the anchor that no block put in sooner divides, or nowhere when there is none, as its status says; at one offset the blocks behind an anchor come first, and each kind ascends by addon and slug |
| TemplatesPlaces.AtFirstPlace | cli/inject.ts:263-286 | Where no block divides the first place of its anchor, a block stands there |
| TemplatesPlaces.InspectedExactly | cli/inject.ts:142-166 | Inspecting a reconciled template for any injection, of the list or not: no anchor in the markup, no block under its name, one with another snippet, or its own |
| TemplatesPlaces.ChangedUpstream | cli/inject.ts:146-156 | A template whose text without blocks is not the one of its snapshot is reported as changed upstream, and only such a one |
| Templates.TemplateStore.Reconcile | cli/inject.ts:175-201 | Every template is rendered from exactly the injections for it, those of a removed addon gone |
| TemplatesProofs.StrippedFull | cli/inject.ts:90-95 | Stripping all markers leaves what was there before any block |
| TemplatesProofs.BlockOfDoc | cli/inject.ts:97-104 | Looking for an addon's block finds that block, or nothing when it is not placed, however many others there are |
| TemplatesProofs.PlaceAll | cli/inject.ts:258-287 | Placing one injection after another puts each block into the pristine text, never into another's block |
| TemplatesProofs.RenderedMeans | cli/inject.ts:212-302 | Stripping what was rendered gives the pristine text, and each placed block, and only those, is found as it was wrapped |
| TemplatesRuns.SortedMeans | cli/inject.ts:258-273 | The sort keeps every injection and puts them in ascending order |
| TemplatesRuns.InOrderIndependent | cli/inject.ts:255-273 | The order of application does not depend on the order of the list |
| TemplatesRuns.ReconciledSettles | cli/inject.ts:212-302 | From any state of a file that began pristine, rendering leads to one state that depends on the list alone |
| TemplatesRuns.LastListWins | cli/inject.ts:175-302 | After any run of reconciliations the file and its snapshot depend on the last set of injections only, not on its order or on what came before |
| TemplatesRuns.AgainAndBack | cli/inject.ts:175-302 | Repeating writes nothing, and the empty set restores the pristine file and drops the snapshot |
| TemplatesRuns.StatusesMeanPlaced | cli/inject.ts:263-286 | A status is ok exactly for the injections that were placed |
| TemplatesRuns.InspectedIsPlaced | cli/inject.ts:142-166 | Inspecting afterwards says ok exactly for the injections whose status was ok |
| NginxTransaction.NginxFileChange | cli/nginx-transaction.ts:95-105 | A staged change carries a truthful backup of what is at its path |
| NginxTransaction.Host.OneFault | cli/nginx-transaction.ts:77-212 | What the counting of faults means: with one operation failing at most, the count grows by one at most, and not at all over operations that succeed |
| NginxTransaction.Transaction.Prepare | cli/nginx-transaction.ts:137-160 | It succeeds exactly when no operation fails, the stage does not throw and Nginx does not refuse what is staged; then all changes are on disk, the rows are staged and what is on disk passed the test when a reload is due; on failure everything touched is backed up |
| NginxTransaction.Transaction.WriteChanges | cli/nginx-transaction.ts:147-152 | The write loop: all changes applied exactly when no write fails, or else a front part of them, every touched path backed up first |
| NginxTransaction.Transaction.Attempt | cli/nginx-transaction.ts:200-204 | Preparing, reloading and committing all succeed exactly when no operation fails, the stage does not throw and Nginx does not refuse what is staged |
| NginxTransaction.Transaction.RestoreVhosts | cli/nginx-transaction.ts:77-88 | Every written file is tried, the failures name exactly those whose write fails, and after it every path is as before or named |
| NginxTransaction.Transaction.Restore | cli/nginx-transaction.ts:172-188 | Every path is as before or named among the failures, rows are back unless their failure is reported; no failure is reported exactly when no operation fails and the files from before pass the test, if they are tested; and a reload is due exactly when one was attempted and the files put back pass the test |
| NginxTransaction.Transaction.Recover | cli/nginx-transaction.ts:205-212 | Every path is as before or named, and Nginx runs what is on disk when a reload was attempted and neither the test nor the second reload is reported; complete exactly when no operation of the recovery fails and the files from before pass the test, if they are tested; then Nginx runs them again when a reload was attempted, or what it ran |
| NginxTransaction.WithNginxTransaction | cli/nginx-transaction.ts:192-213 | Under every fault schedule: it returns exactly when no operation fails, the stage does not throw and Nginx does not refuse what is staged, and then all is on disk, committed and running; a throw commits no row, leaves every file as before unless its path is named, touches no file that was not staged, and names nothing unless a second thing goes wrong; with one fault at most and both file sets acceptable, it returns or throws without a recovery failure, Nginx running what it ran or those files again |
| NginxTransaction.ReloadsWereTested | cli/nginx-transaction.ts:154-166 | Before every reload there is a successful test with no write between them |
| NginxTransaction.StagedExactly | cli/nginx-transaction.ts:147-152 | Every staged content is on disk exactly when no path is staged with two contents |
| NginxTransaction.LastChangeLost | cli/nginx-transaction.ts:147-152 | A file staged with a second content and then with its first one again keeps the second |
| CloudflareIps.Cloudflare.UpdateSites | addons/cloudflare-ips/action.ts:206-247 | Done exactly when every named site can be updated, Nginx accepts the result and no operation fails: then each has the flag and its vhost transformed with owner and mode kept, and Nginx runs the tested files; otherwise no row changed, and every file is as before unless it is named; no file but their vhosts changes in any case |
| CloudflareIps.Cloudflare.SetPolicy | addons/cloudflare-ips/action.ts:271-284 | The policy step of the machine, exactly when the write does not fail |
| CloudflareIps.Cloudflare.SetSelected | addons/cloudflare-ips/action.ts:286-325 | The set step, exactly when every named site can be updated, Nginx accepts the result and no operation fails; a single fault leaves policy, rows, vhosts and the running Nginx as before |
| CloudflareIps.Cloudflare.TurnOnEach | addons/cloudflare-ips/action.ts:346-356 | One site at a time: without a fault exactly those are turned on that can be and that Nginx accepts beside the ones before; where Nginx does not mind, no more sites fail besides those that cannot be updated than operations fail |
| CloudflareIps.Cloudflare.ReconcileNewSites | addons/cloudflare-ips/action.ts:327-363 | The rows that change are exactly those of sites not known, not excluded, off and not failed, with the automation on; every other site keeps its vhost, whatever fails; and for which sites it fails: without a fault exactly those that cannot be updated or that Nginx refuses beside the ones before; the vhosts of the others are transformed, and Nginx runs them if there are any |
| CloudflareIps.FailsAlone | addons/cloudflare-ips/action.ts:344-356 | A vhost that cannot take the change fails alone: where Nginx accepts the vhosts whichever sites are on, every other site is turned on |
| CloudflareIps.VhostIsSet | addons/cloudflare-ips/action.ts:222-229 | What is meant by it: a named domain's vhost has the content its own transformation gives, with mode and owner from before |
| CloudflareIps.OthersAreKept | addons/cloudflare-ips/action.ts:222-235 | A file that is no named domain's vhost is left as it was |
| CloudflareIps.StagedIsSet | addons/cloudflare-ips/action.ts:221-235 | Writing what is staged for the named domains, duplicates and unchanged contents included, transforms exactly their vhosts |
| CloudflareIps.OnlySetExcludes | addons/cloudflare-ips/action.ts:286-363 | Over any run of set, policy and pass steps and of changes by the panel, the excluded domains are those the set steps left |
| CloudflareIps.ExcludedStaysOff | addons/cloudflare-ips/action.ts:340-356 | An excluded domain that is off stays off through any run that does not set it, also when its site is deleted and made again off |
| CloudflareIps.PassKnows | addons/cloudflare-ips/action.ts:335-360 | A pass leaves known exactly the current sites less the failed ones, each newly known one excluded or on, and excluded rows untouched |
| CloudflareIps.PassChanges | addons/cloudflare-ips/action.ts:339-356 | The pass step changes exactly the rows of sites that were not known, may be on, were off, and did not fail |
| CloudflareIps.AutoKnows | addons/cloudflare-ips/action.ts:271-284 | Turning the automation on makes known exactly the sites there are, turning it off changes what is known of none; neither touches a row |
| CloudflareIps.SetMeans | addons/cloudflare-ips/action.ts:292-306 | A set step makes the named sites known, sets their flags and no other row's, and excludes or readmits exactly their domains |
| CloudflareIps.KnownIsSpared | addons/cloudflare-ips/action.ts:337-356 | A known site is turned on by no pass of any run in which nobody else touches it |
| CloudflareIps.AutomationSpares | addons/cloudflare-ips/action.ts:271-356 | A site that was there when the automation was turned on is turned on by no later pass |
| CloudflareVhostProofs.LinesWhole | addons/cloudflare-ips/action.ts:188-201 | Text is its lines with what ends them, as the anchors of the expressions see them |
| CloudflareVhostProofs.TransformIs | addons/cloudflare-ips/action.ts:187-203 | The three replacements, each on the text the one before left, are the three on the lines; refused exactly when there is not one access log of the user |
| CloudflareVhostProofs.LastCallWins | addons/cloudflare-ips/action.ts:187-203 | Of two calls the second alone decides, exactly when the first turned the rules off or the access log's line ends with a plain line feed |
| CloudflareVhostProofs.OffAfterOn | addons/cloudflare-ips/action.ts:187-203 | Off after on gives back exactly the vhosts that had the rules off and end the access log's line so |
| CloudflareVhostProofs.OffMeans | addons/cloudflare-ips/action.ts:187-203 | The rules are off exactly when the one access log has its usual format and there is no include |
| CloudflareVhostProofs.SiteOnAndOff | addons/cloudflare-ips/action.ts:206-247 | A site turned on and off has all its files back exactly then |
| CloudflareVhostProofs.ReturnLost | addons/cloudflare-ips/action.ts:187-203 | For every user a vhost with CR LF that does not come back |
| NginxProxy.MatchingBrace | cli/inject.ts:520-527 | The loop finds the brace that closes the one it starts at, or none |
| NginxProxy.FindServerBlocks | cli/inject.ts:536-548 | The search loop gives the server blocks of the masked text |
| NginxNoise.MaskExactly | cli/inject.ts:513-517 | A text of code, comments and strings, however a string ends, is masked by blanking exactly the comments and strings |
| NginxNoise.EveryText | cli/inject.ts:513 | Every text is such code, comments and strings, one after the other |
| NginxProxyShapes.ClosingExactly | cli/inject.ts:520-527 | The brace found for an opening one is the first at which the braces from there on are even |
| NginxProxyShapes.BlocksExactly | cli/inject.ts:536-548 | Each server block goes from a head to the brace that closes it, none within another, and no other such head stands outside all of them |
| NginxProxyShapes.ConflictsExactly | cli/inject.ts:553 | Exactly which texts hold a location for /addons/ of their own |
| NginxProxyShapes.ListensExactly | cli/inject.ts:424-427 | Exactly which blocks count as listening on 8443 |
| NginxProxyShapes.RefusedExactly | cli/inject.ts:550-561 | The proxy is refused exactly for such a location, and otherwise unless exactly one server block listens on 8443; taking it out never is |
| NginxProxyShapes.MarkedRead | cli/inject.ts:341 | A block between markers, up to the first end marker, is matched whole, with the line end and blanks ahead of it and the line end behind |
| NginxProxyShapes.MarkedWritten | cli/inject.ts:341 | Whatever is matched is such a block |
| NginxProxyShapes.StripMeans | cli/inject.ts:488-490 | Stripping takes out the first such block and goes on behind it |
| NginxProxyProofs.MaskLine | cli/inject.ts:513-517 | Masking goes line by line: no comment or string passes a line end |
| NginxProxyProofs.MaskCut | cli/inject.ts:513-517 | At a brace that counts, the mask is the masks of the two parts |
| NginxProxyProofs.ClosingInserted | cli/inject.ts:520-527 | Text with one matched pair of braces moves a closing brace behind it and changes no match |
| NginxProxyProofs.ScanInserted | cli/inject.ts:536-548 | Such text without a server head, put before a closing brace, moves what is at the brace or behind it, and changes no block otherwise |
| NginxProxyProofs.MaskedIsInert | cli/inject.ts:327-339 | The proxy block, masked, is such a text |
| NginxProxyProofs.StripsInserted | cli/inject.ts:341-490 | Stripping takes the block out with its two line ends, and a carriage return right before it |
| NginxProxyProofs.TargetListens | cli/inject.ts:424-427 | The block the proxy goes into listens on 8443, and no other server block does |
| NginxProxyProofs.ProxyRoundTrip | cli/inject.ts:488-566 | Off after on gives back the text exactly when no bare carriage return stands before the closing brace, and then on twice is on once |
| NginxProxyCases.ReturnLost | cli/inject.ts:488-566 | A vhost with a carriage return before the closing brace that does not come back |
| NginxProxyProofs.ProxyKeepsBlocks | cli/inject.ts:550-566 | With the proxy on, the masked text is the one from before with the location at the end of the 8443 block, and the server blocks are the same ones |
| PhpScanner.ReadValue | lib/sso-auth.ts:277-305 | A successful scan moves on, stays within the bytes and counts at most the allowed nodes |
| PhpScanner.Scanner.NextInteger | lib/sso-auth.ts:388-400 | The digit loop reads the number at the offset, or says why not |
| PhpScanner.Scanner.NextText | lib/sso-auth.ts:373-386 | A string payload is read as specified |
| PhpScanner.Scanner.ParseEntries | lib/sso-auth.ts:317-334 | The entry loop reads as many pairs as counted, one level down, and refuses a key that comes twice |
| PhpScanner.Scanner.ParseObject | lib/sso-auth.ts:336-364 | A class name and properties are read as specified |
| PhpScanner.Scanner.ParseValue | lib/sso-auth.ts:277-305 | The recursive scanner leaves its offset and node count where the specification says, and gives its value or failure |
| PhpScanner.Scanner.NextSessionKey | lib/sso-auth.ts:307-315 | The key up to the next bar is read, or why not |
| PhpScanner.ParseSerializedValue | lib/sso-auth.ts:500-509 | A value that takes all the bytes, or nothing |
| PhpScanner.ParseSessionFields | lib/sso-auth.ts:526-534 | The framing loop gives the fields in order, or nothing |
| PhpProofs.IntegerExactly | lib/sso-auth.ts:388-400 | Exactly when an integer is read: the longest run of digits at the offset, with or without a minus sign, that writes a safe integer |
| PhpProofs.ReadPrinted | lib/sso-auth.ts:277-410 | A printed value within the limits is read back as itself at any offset, whatever is around it, with exactly its own number of nodes |
| PhpProofs.RoundTrip | lib/sso-auth.ts:500-509 | Printing and scanning give back every value within the limits |
| PhpProofs.ScannedFits | lib/sso-auth.ts:277-364 | Whatever is scanned is within the limits of depth, nodes, integers, class names and distinct keys |
| PhpProofs.PrintedShort | lib/sso-auth.ts:277-400 | A scanned value is printed in no more bytes than it was read from, whatever zeros and signs it had to spare |
| PhpProofs.ScannedComesBack | lib/sso-auth.ts:500-509 | A scanned value, printed in no more bytes and scanned again, comes back |
| PhpProofs.ValueLocal | lib/sso-auth.ts:277-410 | What is read depends only on the bytes read: the same bytes elsewhere, after other nodes, give the same value |
| PhpProofs.SessionRoundTrip | lib/sso-auth.ts:526-534 | Fields written as `key\|value` one after the other are recovered in full |
| PhpProofs.ReadAlone | lib/sso-auth.ts:529-534 | A value read in the middle of a session is what its own bytes are read as |
| PhpProofs.SessionExactly | lib/sso-auth.ts:526-534 | Which sessions are read, both ways: cut into segments with different keys whose values each scan in full, with no more nodes together than one value may have |
| Spf.Parse | addons/dns/spf.ts:60-94 | The term loop gives the record, or the first problem |
| Spf.Collect | addons/dns/spf.ts:128-131 | The loops over records and terms keep each sender once, in its earliest spelling |
| Spf.MergeSpf | addons/dns/spf.ts:109-140 | The merge with its refusals, in their order |
| SpfTerms.ModifierExactly | addons/dns/spf.ts:64-71 | Exactly which terms are modifiers, and with what name and value |
| SpfTerms.MechanismExactly | addons/dns/spf.ts:72-78 | Exactly which terms are mechanisms, of which kind in any case of letters, with which qualifier and rest; only what begins with `all` could be taken for another kind |
| SpfTerms.HostExactly | addons/dns/spf.ts:53-58 | Exactly which texts a host key comes from: perhaps a colon and a domain, perhaps one or two digits behind a slash, perhaps one to three behind two |
| SpfTerms.NamedExactly | addons/dns/spf.ts:86-91 | Exactly which texts the other keys come from: a domain behind a colon, and for `ptr` also nothing |
| SpfTerms.RecordExactly | addons/dns/spf.ts:60-94 | A record parses exactly when it has no macro and each term in turn is one more it may hold: a modifier it does not have yet, its one `all`, or a passing sender in front of that |
| SpfLookups.AtMostTen | addons/dns/spf.ts:100-135 | At most ten words of a merged value are read as include, a, mx, ptr, exists or redirect |
| SpfLookups.RefusedExactly | addons/dns/spf.ts:109-135 | When a merge is refused and for what, in the order of the program; for too many lookups exactly when the distinct senders of those kinds in all the records, with a redirection, are more than ten, and that is the number given |
| SpfLookups.PublishedExactly | addons/dns/spf.ts:118-123 | What is reported of the published records is the problem of the first that does not parse |
| SpfProofs.WordsJoined | addons/dns/spf.ts:63-137 | Terms joined with spaces are split into themselves again |
| SpfProofs.WrittenParses | addons/dns/spf.ts:60-137 | A record that came from parsing, written out, parses to itself |
| SpfProofs.AddingMeans | addons/dns/spf.ts:128-131 | Adding terms keeps what there was, adds exactly the missing senders, and none twice |
| SpfProofs.MergeMeans | addons/dns/spf.ts:109-140 | The merged value parses; a sender passes by a mechanism exactly when some published record or the profile's passes it by one; any other is judged as every published record judges it; at most ten lookups |
| SpfProofs.MergeAgain | addons/dns/spf.ts:109-140 | Merging into the merged value gives it again, unchanged |
| SpfProofs.ChangedExactly | addons/dns/spf.ts:138-139 | Unchanged exactly when one record is published and it has every sender the profile wants |
| SpfProofs.KindReadBack | addons/dns/spf.ts:72-76 | Every kind spelled out, with nothing, a colon or a slash behind it, is read as itself, whichever kinds are tried before it |
| SpfProofs.AddressExactly | addons/dns/spf.ts:44-51 | Exactly which texts an address key comes from: a colon, a recognised address, and perhaps one to three digits that are no longer a prefix than the address has bits |
| SpfProofs.DefaultsSpelledOut | addons/dns/spf.ts:44-58 | A default prefix length left out or written out is the same sender |
| SpfProofs.PlusSpelledOut | addons/dns/spf.ts:74-77 | A mechanism with its plus sign written is the same mechanism |
| Txt.Chunks | addons/dns/cloudflare.ts:89 | The chunks make up the value, none over 255 units and all but the last of exactly 255 |
| Txt.MatchesQuoted | addons/dns/cloudflare.ts:82-84 | The matches of a quoted value cover it, and their contents unescaped are its chunks |
| Txt.RoundTrip | addons/dns/cloudflare.ts:79-91 | Unquoting a quoted value gives it back, whatever it holds |
| Txt.QuoteInjective | addons/dns/cloudflare.ts:88-91 | No two values are quoted alike |
| Pages.ReadPages | addons/dns/cloudflare.ts:242-268 | The page loop gives the entries, or why the read cannot be trusted |
| Pages.ReadMeans | addons/dns/cloudflare.ts:246-267 | Whatever is answered, what is returned has no entry twice and is as many as every page counted |
| Pages.UnchangedIsRead | addons/dns/cloudflare.ts:242-268 | A list that does not change is returned as it is, unless it is too long |
| JobLog.ReadJobLog | cli/job-store.ts:110-148 | The backward chunked read shows the last lines of the whole file when they are within reach, and otherwise the complete lines that are |
| JobLog.EnoughRead | cli/job-store.ts:123-140 | Enough newlines in the part read give the lines of the whole file |
| JobLog.ShownExactly | cli/job-store.ts:123-140 | What is shown is the last lines of a long file exactly when they are within reach |
| JobLog.LongLineCut | cli/job-store.ts:123-140 | One line longer than the limit is not shown as it is |
| ManagerJobs.LiveLooksYoung | cli/job-store.ts:317-323 | A live job that a look's reading of the unit did not see is never old to the same look's later reading of its age, in time |
| ManagerJobs.StepKeeps | cli/manager-action.ts:220-424 | Every step of a creator, runner, pruning pass or clock keeps the protocol's invariant, the readings of state, unit and age within one look being separate steps |
| ManagerJobs.OneAtATime | cli/manager-action.ts:220-424 | In every run at most one job's runner is pending or at work, no pass is about to fail or remove it, and no creator can begin another beside it |
| ManagerJobs.TwoAtATime | cli/job-store.ts:317-323 | With six minutes between them, however shared by the unit's time out of sight and one look's readings, a run with two live jobs |
| ManagerJobs.ExactlyWhenInTime | cli/job-store.ts:317-367 | One job at a time in every reachable state exactly when time out of sight and time for a look are less than six minutes together |
| ManagerJobs.DeadJobsDoNotBlock | cli/manager-action.ts:220-228 | When all runners are gone for six minutes a creator gets to start its job |
| ManagerJobs.JobLives | cli/manager-action.ts:339-424 | A job that starts, runs and finishes has a record that says so at each step, with the time of its last write, and touches nothing else |
| ManagerJobs.PassOver | cli/job-store.ts:338-367 | A pass that is not disturbed removes a finished record exactly when it is old enough in whole days, marks an unfinished one as failed exactly when its unit is out of sight and nobody wrote it for six minutes, and leaves every other |
| NewSites.Watcher.Look | cli/new-sites.ts:140-157 | One look, CloudPanel moving between any two of its steps: panel, seen file, watcher and answers are those the steps in their order give |
| NewSites.LookMeans | cli/new-sites.ts:140-157 | A look's readings are of later and later panels, the rows known afterwards are those read, and the watcher is armed exactly when a site is in flight, an addon waits or the rows could not be read |
| NewSites.Watcher.SyncNewSites | cli/new-sites.ts:130-163 | The loop ends, against any interleaving with finitely many row changes, where the run of looks and second readings in their order ends |
| NewSites.WatchMeans | cli/new-sites.ts:130-163 | What a whole run comes to: its last look is one at a later panel; the watcher is left on exactly when a site is in flight, an addon waits or the rows could not be read; when on, the rows were read again after it was set and were those the hooks ran for last or could not be read; an addon that waits was asked after an earlier look had set it |
| NewSites.LaterKeeps | cli/new-sites.ts:3-13 | The panel's moves keep vhost and row consistent, and rows stay as they are until a row change is used up |
| NewSites.InFlightExactly | cli/new-sites.ts:74-99 | Nothing is in flight exactly when the directory was quiet for an hour, or every row has a vhost and every vhost of the last hour a row |
| NewSites.NoneMissed | cli/new-sites.ts:74-99 | With the watcher left off and the directory changed within the hour, every recent vhost has a row the hooks ran for, its own site's exactly when the vhost was there before the rows were read, and no such row lacks its vhost |
| NewSites.TouchedIsMissed | cli/new-sites.ts:84 | A vhost without a row that was written in place just now passes the in-flight test when the directory has not changed for an hour |
| NewSites.RemadeIsMissed | cli/new-sites.ts:74-99 | A site deleted and made again between the two readings passes the in-flight test |
| NewSites.RemadeRun | cli/new-sites.ts:135-163 | A run of the watcher that ends with it off and a site's new vhost unhandled |
| Gateway.Connection.Frame | cli/auth-action.ts:450-464 | Pieces are gathered until the first newline, refused exactly beyond the limit, and what follows it is held for a granted stream |
| Gateway.Connection.OnData | cli/auth-action.ts:444-614 | Every piece goes where it must, once, whatever the cuts; the connection is destroyed exactly when more is held than may be, and the first complete line within the limit decides whether the rest is held |
| Gateway.Connection.OnWorkerStarted | cli/auth-action.ts:328-331 | The worker gets all that was held, in order, before later bytes; after a write that fails it gets nothing more, and what it got is a front part |
| Gateway.Connection.Run | cli/auth-action.ts:444-634 | In every run, of any length: bytes are handed over exactly when the first line was complete within the limit and in time, and granted, and the worker started after it; the connection is destroyed exactly when more than the limit was held before that; otherwise stdin is exactly the bytes behind the first newline, unless a write failed or the input ended after the start |
| Gateway.CutAtNewline | cli/auth-action.ts:456-463 | Bytes without a newline, a newline and what follows are the first line and the bytes behind it |
| Gateway.MoreAfterLine | cli/auth-action.ts:461-463 | Later bytes add to what follows the first line and to nothing else |
| Gateway.Stream.SendFirst | lib/gateway-client.ts:389-397 | However much the socket takes, bytes sent and outbox stay the accepted lines, and the size stays exact; the socket owes a drain event when it took less than it was offered |
| Gateway.Stream.FlushOutbox | lib/gateway-client.ts:387-399 | The outbox is written until it is empty or the socket took less than it was offered, and so owes a drain event |
| Gateway.Stream.OnOpen | lib/gateway-client.ts:480-488 | The request line goes out, as far as the socket takes it, and then the outbox |
| Gateway.Stream.OnTheWire | lib/gateway-client.ts:480-488 | What is on the wire and still to go there is the request line and the accepted lines exactly when the socket took the whole request line at once |
| Gateway.FirstLineIsRequest | lib/gateway-client.ts:486-487 | The server's first line is the request exactly when the whole request line was taken, or what follows happens to make it up |
| Gateway.RequestRunsOn | lib/gateway-client.ts:486-487 | A request line short of its last byte, read as one line with what follows |
| Gateway.Stream.Write | lib/gateway-client.ts:401-409 | A line is accepted in full, behind what waits or written at once, or refused in full and the stream ended |
| Gateway.Stream.Deliver | lib/gateway-client.ts:367-385 | Every complete line is handed over, whatever the cuts, until the caller closes the stream on one or what is left is too long; lines and rest are what was read |
| Gateway.SplitsOneWay | lib/gateway-client.ts:369-374 | A text has one division into lines and a rest |

## Left out

What the models do not capture:

- Characters are Unicode scalars, not UTF-16 units, except in `Txt.dfy`, where a chunk may end between the two units of a pair. UTF-8 decoding is an abstract function of the bytes.
- In the vhost parser a block is attached to its parent when it closes, where the program attaches a reference when it opens; a text that is accepted gives the same tree. An empty directive keeps the start of the last word before it, as in the program.
- NginxInsertion.InsertDirective: is about an insertion behind a server block's brace of text without a closing brace that begins with a line break; the maintenance include is such a text for any path that is one plain word.
- MaintenanceVhosts.StageMaintenanceVhosts: requires the site table's domains to be distinct, as its key makes them; the normalisation of a domain is an abstract test, and the trust check of a vhost is assumed to pass.
- Templates: SHA-256 is injective, the comparison of names is any total order, and the snapshot's file names are not folded. What is proved over runs, and of where blocks stand, assumes injections that can be told apart, pristine texts and snippets without markers, and anchors that no wrapped block can contain or overlap.
- NginxTransaction.WithNginxTransaction: backups are truthful when they are staged; a write is atomic, and a failing reload may or may not have been carried out. The variant that waits for a caller before it commits is not modelled.
- CloudflareIps: what is proved holds for any rewriting of one vhost, `CloudflareVhost.Transform` among them; the reading of a domain is an abstract function, and rows that stand in for addons, which the program filters out, are not among the rows. Files and rows are changed by nobody else during one action. After a recovery failure nothing is said of the running Nginx.
- CloudflareVhost: a user's name holds no line break, so each expression matches within one line.
- NginxProxy: the search for the panel's vhost, its state files, and System Tweaks' phpMyAdmin rules are left out.
- PhpProofs.ScannedComesBack: text is encoded in no more bytes than it was decoded from, as UTF-8 is. Negative zero is zero, which is how the program compares keys.
- What is read out of a session's fields (user, roles, expiry) is left out.
- Spf: host names and addresses are recognised by abstract functions; sender keys are a datatype in place of their spelling. With no published record the profile's is used as written, so nothing is claimed about it.
- Pages: an entry that cannot be read counts as a failed call; re-reading after an inconsistency is left out.
- JobLog: reads are full. The exact condition is for fewer than 1048576 lines asked for.
- ManagerJobs: a record's fields are written as one step up to its state, since only the state, the unit and the directory's age decide; within one reading of the age the clock comes first; a unit refused has not started; ids are not given twice.
- NewSites: the directory and the vhosts' ages are read as one look; hooks do not throw; a domain is compared as the panel spells it.
- Gateway: only duplex streams; other requests end the framing. Pausing the socket, the recheck of the session and a worker's output are left out.

Parts of the repository that are not part of this model, because they are plumbing or would add easy members only: pages,
styles and client scripts; provisioning, units and shell commands; network clients; ownership, mode and link checks; host
name and flag validators; the reports of status.
