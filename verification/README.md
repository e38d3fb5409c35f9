# Komachi: a verification project

Komachi is a wiki server with a browser front end. This project models the parts of it where a mistake silently costs
data or meaning, and proves what they promise.

- **Links.** When pages move, every Markdown link must go on naming its page. `WikiPath` has normalisation and reference
  resolution (section 5.2 of RFC 3986, a page being its own folder), `LinkRewrite` the path rules, the relative paths
  and the two link rewriters, `LinkTargets` the page that each shape of link names and the rule that counts,
  `OutsideLinks` the links that name no page, `PageSlugs` the names pages may have and the two passes over a moved
  subtree, `LinkSplice` the scan for links, the matching with the parsed ones and the splice, `LinkText` what the scan
  finds, told by the text alone, `LinkRescan` the scan of the rewritten text, `SubtreeRescan` both passes over the text
  of a moved page.
- **Search.** `QueryTokens`, `QueryParser` and `QueryBinding` have the compiler from the query language of SQLite FTS5
  to a boolean condition with numbered arguments; `QueryLexemes` has the texts that spell a token list, `QueryOutput`
  what is emitted for the kinds of terms, in literal weights, quotes and arguments; `QueryMeaning` has query trees and
  their meaning, `QuerySyntax` the forms in which they are written, `QueryReadBack` the proof that a form is compiled to
  its tree, with `QueryBalance` counting parentheses, `QueryTrees` the proof that all accepted text is written in some
  form, `PlainSearch` the queries without syntax. `PageSearch` has the bounded top list of the browser.
- **Restores.** `Disk` is a file tree whose operations fail at will. `Swap`, `RestoreJob`, `RestoredTree` and
  `RestoreManager` restore into the running server; `TransferRestore`, `PostgresRestore` and `LegacyImport` are the
  journalled transfers; `WriteGate` keeps requests out meanwhile.
- **Imports.** `ImportExecution` has the resumable executor and its persisted plan; `CodeSpans`, `CodeRescan`,
  `ImportLinks` and `ImportRescan` the rewriter that must leave code alone; `CodeBlocks` and `ImportLinkText` tell by the
  text alone what is code and what is a link.
- **State machines.** `Preferences` has the sessions of the browser and its optimistic writer of user settings,
  `LoginLimiter` the limit on failed logins.
- `Wrappers` and `Text` hold the shared result types and string operations.

Code that changes state is written as classes and loops, each proved against a specification function or a statement of
its new state; the promises are lemmas about those functions, or `ensures` clauses over the recorded history. A
`FileTree` records every state it has been in, so a clause about the history speaks about every point at which the
process may stop; its `faults` count what has failed, so a clause can say that an operation fails only for a cause, and
succeeds only without one; its `steps` name what was tried in what order, on which files and with what outcome, so that
no step can be skipped. `WriteGate` and `Preferences` are state machines over atomic steps, and their lemmas quantify
over all runs.

Where the code falls short of what its callers may expect, the model keeps the code and a lemma states when it holds:
rules applied to a moved page (`RulesKeepMeaning`, `MovedPageCanLoseItsSister`; no caller does so: `refactor.go` keeps
the moved subtree out of the plan for the other pages, lines 478-505, and gives the second pass the new path, line 674),
a second pass left out because the text spells the old path differently (`SubtreeDocumentKeepsMeaning`,
`GappedLinkIsMissed`), a quoted colon behind a phrase or a quoted parenthesis behind the word NEAR (`CompileReadsBack`
and the three inputs behind it), unused arguments (`ArgumentsAreUsed`, `AnchoredPathIsUnused`), AND, OR and NOT between
plain words (`PlainWordsArePrefixes`), a code span that a longer run of backticks ends (`SpanEndsExactly`,
`LongRunCloses`; section 6.1 of the CommonMark specification asks for a run of the same length), an asset address with a
backtick in it (`ImportLeavesCodeAlone`, `BacktickMovesCode`), settings that are overtaken, answered late or not at all
(`QuietAgreesWithServer` and the four runs behind it).

Two comments in the source do not describe its code. The one on `Finish` in `backend/internal/restore/job.go` (lines
75-76) says that it clears needsIntervention; it does not (`Job.Finish`). The one on `Job` in the same file (lines
25-28) says that needsIntervention is set only when a rollback fails; `manager.go` also sets it when the stores cannot
be reopened, be it after a rollback, with the gate closed, or after a failed pause or removal of logs, with the gate
open (`RunFromZipPath`).

## Model

| member | source | states |
|---|---|---|
| WikiPath.NormalizeWikiPath | backend/internal/links/helpers.go:217-246 | The strip and collapse loops compute the canonical path: exactly the non-empty segments, in order, behind single slashes. |
| WikiPath.HalveKeepsNames | backend/internal/links/helpers.go:230-237 | Collapsing double slashes never loses, adds or reorders a segment. |
| WikiPath.AlreadyCanonical | backend/internal/links/helpers.go:217-246 | A rooted path without double or trailing slashes is the printed form of its own segments. |
| WikiPath.SplitJoin | backend/internal/links/helpers.go:248-271 | Segments survive being written with slashes and split again. |
| WikiPath.WalkLeavesNoDots | backend/internal/links/helpers.go:248-271 | Whatever the reference, the walk of RFC 3986 section 5.2.4 leaves no dot segment and invents none. |
| WikiPath.ResolvedIsPagePath | backend/internal/links/helpers.go:248-271 | A resolved link is empty or a canonical page path, for every reference. |
| LinkTargets.RelativeTarget | backend/internal/links/helpers.go:248-271 | A link without a slash in front, query and fragment aside, is walked from the names of its page. |
| LinkTargets.RootedTarget | backend/internal/links/helpers.go:248-271 | With one slash in front, or three and more, it is walked from the root. |
| LinkTargets.HostTarget | backend/internal/links/helpers.go:248-271 | Behind two slashes and a host the path is walked from the root; without a path no page is named. |
| LinkTargets.EmptyHostTarget | backend/internal/links/helpers.go:248-271 | Two slashes alone name the page itself. |
| LinkRewrite.SplitWikiPathSegments | backend/internal/links/link_refactor.go:719-725 | The segments of a path are the names of its part before query and fragment. |
| LinkRewrite.RelativeWikiLinkPath | backend/internal/links/link_refactor.go:691-717 | The common-prefix loop computes the climb above the common part followed by the rest of the target. |
| LinkRewrite.RelativePathResolves | backend/internal/links/link_refactor.go:691-717 | A non-empty relative path resolves, from its own page, to exactly the target page. |
| LinkRewrite.RelativePathEmpty | backend/internal/links/link_refactor.go:691-717 | The relative path is empty exactly for the page itself (or an unwritten root target). |
| LinkRewrite.RelativePathShortest | backend/internal/links/link_refactor.go:691-717 | No climb-then-names reference that reaches the target has fewer segments. |
| LinkRewrite.ResolveIsClimb | backend/internal/links/helpers.go:248-271 | Every relative reference, dots and gaps anywhere, resolves like one climb followed by names. |
| LinkRewrite.SameReferenceTwoPages | backend/internal/links/helpers.go:248-271 | One reference means the same page on two pages if and only if it climbs to the same folder from both. |
| LinkRewrite.SplitLinkDestination | backend/internal/links/link_refactor.go:661-669 | The two parts make up the destination; the first has no query or fragment, the second is empty or begins with one. |
| LinkRewrite.PathChangeKeepsMeaning | backend/internal/links/link_refactor.go:581-611 | On a moved page each relative page link, read from the new path, names what the old one named after the move, suffix unchanged; only a link to the page itself is left alone with a warning. |
| LinkRewrite.RulesKeepMeaning | backend/internal/links/link_refactor.go:543-579 | Rules applied in place keep a link's meaning, read from wherever its page ends up, if and only if it is rooted, or its target moves, or it climbs to the same folder before and after; a link is reported as changed exactly if its target moves and it is not warned about. |
| LinkRewrite.MovedPageCanLoseItsSister | backend/internal/links/link_refactor.go:543-579 | A concrete family where that condition fails: a moved page's link to an unmoved sister silently changes target. |
| LinkRewrite.MovedIsPagePath | backend/internal/links/link_refactor.go:679-689 | The first matching rule maps page paths to page paths. |
| LinkTargets.NoRuleApplies | backend/internal/links/link_refactor.go:679-689 | A path is left alone if and only if no rule has it or a folder it is in as old path. |
| LinkTargets.FirstRuleApplies | backend/internal/links/link_refactor.go:679-689 | Of the rules about a path the first counts: its new path replaces its old one, the rest of the path stays. |
| OutsideLinks.PageLinkByText | backend/internal/links/link_refactor.go:671-677 | A destination counts as a page link if and only if it is not empty, does not begin with a number sign or, in whatever case, with http://, https:// or mailto:, nor, behind blanks and perhaps an angle bracket, with the asset folder. |
| OutsideLinks.WebAddressIsLeftAlone | backend/internal/links/link_refactor.go:543-611 | Both rewriters return a web or mail address as it is, unchanged and without a warning. |
| OutsideLinks.AssetIsLeftAlone | backend/internal/links/link_refactor.go:543-611 | Both return a file of the asset folder as it is, rooted or not, behind blanks and in angle brackets or not. |
| OutsideLinks.OwnPartIsLeftAlone | backend/internal/links/link_refactor.go:543-611 | Both return a mere query or fragment as it is. |
| OutsideLinks.HostLinkIsLeftAlone | backend/internal/links/link_refactor.go:543-611 | A link to a host without a path stays as it is, with a warning where rooted links are rewritten. |
| PageSlugs.RewrittenIsPageLink | backend/internal/links/link_refactor.go:543-579 | Rules applied in place: a changed link, rooted or relative, to a page with valid slugs is a page link again, never an asset or external link. |
| PageSlugs.PathChangeIsPageLink | backend/internal/links/link_refactor.go:581-611 | The same for the relative links of a moved page. |
| PageSlugs.SubtreeLinkKeepsMeaning | backend/internal/wiki/pages/refactor.go:659-676 | For one link, after both passes over a moved subtree: every page link, rooted or relative, read from the new place, names what it named, after the move; the second pass leaves the first one's links alone; only a relative self link is warned about, and a rooted link goes wrong if and only if its target moved and the second pass is left out. |
| PageSlugs.CanonicalLinkMentionsOldPath | backend/internal/wiki/pages/refactor.go:671-675 | A link written as the canonical path of a moved page contains the old path, so the second pass is not left out for it. |
| PageSlugs.GappedLinkIsMissed | backend/internal/wiki/pages/refactor.go:671-675 | A family of page links with a double slash does not contain the old path: left to itself, it keeps naming the old place. |
| LinkSplice.RemoveOverlaps | backend/internal/links/link_refactor.go:146-159 | The in-place compaction leaves exactly the kept entries at the front of the array. |
| LinkSplice.KeptIsDisjoint | backend/internal/links/link_refactor.go:146-159 | What is kept is in order, pairwise disjoint and in bounds. |
| LinkSplice.KeptIsSubsequence | backend/internal/links/link_refactor.go:146-159 | What is kept is a subsequence of the input. |
| LinkSplice.DroppedOverlapsKept | backend/internal/links/link_refactor.go:146-159 | An entry is dropped only if it starts inside a kept one. |
| LinkSplice.DisjointAllKept | backend/internal/links/link_refactor.go:613-630 | Disjoint entries are all applied. |
| LinkSplice.ApplyReplacements | backend/internal/links/link_refactor.go:613-630 | The loop produces the splice of the entries that do not overlap an earlier applied one. |
| LinkSplice.SpliceCopiesGap | backend/internal/links/link_refactor.go:613-630 | Every character between entries is copied, displaced by exactly what the earlier entries add. |
| LinkSplice.SpliceCopiesTail | backend/internal/links/link_refactor.go:613-630 | The same for the characters behind the last entry. |
| LinkSplice.SplicePlacesValue | backend/internal/links/link_refactor.go:613-630 | Every new value stands where its entry was. |
| LinkSplice.MergeRanges | backend/internal/links/link_refactor.go:323-350 | Merged ranges are apart and cover exactly what the input covers. |
| LinkSplice.IsExcludedOffset | backend/internal/links/link_refactor.go:649-659 | The early-exit loop decides coverage exactly. |
| LinkSplice.FindClosing | backend/internal/links/link_refactor.go:727-761 | The bracket that brings the nesting depth back to zero, backslashes hiding the next character. |
| LinkSplice.ParseInlineLinkOccurrence | backend/internal/links/link_refactor.go:388-451 | The two loops compute the recursive reading of a destination, which LinkText.DestinationByText describes. |
| LinkSplice.ScanInlineLinkOccurrences | backend/internal/links/link_refactor.go:352-386 | The scan loop computes the links of the recursive reading, which LinkText describes; they are in bounds, increasing, apart, each opened outside code. |
| LinkSplice.ScanIsComplete | backend/internal/links/link_refactor.go:352-386 | No link outside code is missed unless it opens before the end of a found one. |
| LinkText.LinkByText | backend/internal/links/link_refactor.go:352-451 | A link is found at a place if and only if the text there is one: an opening bracket, not of an image and not in code, a label in which brackets close, its closing bracket, gaps, an opening parenthesis, and a destination. |
| LinkText.DestinationByText | backend/internal/links/link_refactor.go:388-451 | A destination is found if and only if one stands there: its parenthesis closes, and behind gaps comes a bare stretch up to a gap, or up to a closing parenthesis with every other one closed, or a stretch in angle brackets; backslashes hide the next character throughout. |
| LinkText.ClosedByText | backend/internal/links/link_refactor.go:745-761 | A closing parenthesis is found if and only if the text is one with closed parentheses, a closing one, and a rest. |
| LinkText.FirstLinkIsFound | backend/internal/links/link_refactor.go:352-386 | From any place on, the scan gives the first link there is and goes on right behind its destination. |
| LinkText.NoLinkIsFound | backend/internal/links/link_refactor.go:352-386 | Where there is no link it gives none. |
| LinkText.NormalizedByText | backend/internal/links/link_refactor.go:533-541 | Destinations are compared without the blanks around them and without one angle bracket at each end. |
| LinkSplice.GreedyMatchIsOrdered | backend/internal/links/link_refactor.go:453-491 | Each mapped candidate gets its own later occurrence with the same normalized destination. |
| LinkSplice.GreedyMatchComplete | backend/internal/links/link_refactor.go:453-491 | If any order-preserving assignment exists, the greedy one maps every candidate. |
| LinkSplice.AllMappedIffEmbedded | backend/internal/links/link_refactor.go:453-491 | All candidates are mapped if and only if their destinations form a subsequence of the scanned ones. |
| LinkSplice.BuildRewritePlan | backend/internal/links/link_refactor.go:453-531 | The plan has exactly the changed matched links; the unmapped candidates are the remaining suffix. |
| LinkSplice.RewriteDocument | backend/internal/links/link_refactor.go:205-223 | The document is rewritten by exactly the planned entries, all of them applied. |
| LinkSplice.RewriteRelativeLinksForPathChange | backend/internal/links/link_refactor.go:200-224 | Nothing is done or reported for a page that stays where it is; otherwise the planned entries and the unmapped candidates. |
| LinkSplice.Rewrite | backend/internal/links/link_refactor.go:226-250 | The planned entries; without rules the text stays and nothing is reported. |
| LinkSplice.MatchedLinksReadAsRewritten | backend/internal/links/link_refactor.go:200-250 | Every matched link, changed or not, reads in the result as what the rewriter made of it. |
| LinkSplice.MovedDocumentKeepsMeaning | backend/internal/links/link_refactor.go:200-224 | Scan, match, rewrite and splice together: in the written-back text each matched relative link of a moved page names what it named, after the move; a page that stays keeps its text. |
| LinkRescan.RewrittenDocumentRescans | backend/internal/links/link_refactor.go:352-451 | Scanned again, with the code displaced, the rewritten document has the same links, each matched one with what the rewriter made of it, if the changed links lose and get no bracket, parenthesis, blank or backslash. |
| LinkRescan.MovedDocumentRescans | backend/internal/links/link_refactor.go:200-224 | From text to text, for targets with valid slugs: a new scan of a moved page finds its links, and each matched relative one names what it named, after the move. |
| SubtreeRescan.SubtreeDocumentKeepsMeaning | backend/internal/wiki/pages/refactor.go:659-676 | From text to text: behind both passes a new scan of a moved page finds its links, and each page link matched by both names what it named, after the move; a rooted link to a moved page goes wrong if and only if the text behind the first pass does not contain the old path, and a link beginning with that path never does. |
| SubtreeRescan.WebAddressReadsUnchanged | backend/internal/wiki/pages/refactor.go:659-676 | From text to text: behind both passes a web or mail address reads as it did. |
| SubtreeRescan.AssetReadsUnchanged | backend/internal/wiki/pages/refactor.go:659-676 | So does a file of the asset folder. |
| QueryTokens.TokenizeQuery | backend/internal/search/postgres_query.go:26-72 | The index loop computes the tokens of the recursive reading and fails on the same inputs. |
| QueryTokens.TokensOfWrite | backend/internal/search/postgres_query.go:26-72 | Every writable token list, quotes doubled inside phrases, is read back as itself. |
| QueryTokens.TokensAreWritable | backend/internal/search/postgres_query.go:26-72 | The tokenizer never produces anything else. |
| QueryLexemes.TokensBySpelling | backend/internal/search/postgres_query.go:26-72 | A text is tokenized to a list if and only if it spells it: blanks anywhere, phrases in quotes with quotes doubled, ten characters that stand for themselves, and longest runs of letters, digits, underscores, the substitute character and what is beyond ASCII; a text that spells no list is refused. |
| QueryParser.Parser.ParseAtom | backend/internal/search/postgres_query.go:232-300 | The parser object advances and binds exactly as the recursive atom does, column filters and NEAR included. |
| QueryParser.Parser.ParseColumnFilter | backend/internal/search/postgres_query.go:157-198 | The column filter narrows the columns as the recursive one does, or is refused, or absent; QueryOutput.FilterLeavesColumns says which columns it leaves. |
| QueryOutput.ColumnNameByText | backend/internal/search/postgres_query.go:157-198 | A column name is a word or phrase that in lower case is one of the seven column names. |
| QueryOutput.FilterLeavesColumns | backend/internal/search/postgres_query.go:157-198 | Behind a filter each of the four weights is the old one if the filter names that column literally, in whatever case, or with a minus if it does not, and 0 otherwise. |
| QueryOutput.FilteredWordSearchesColumns | backend/internal/search/postgres_query.go:157-300 | From text, with and without a minus, one name or names in braces: the condition looks for the quoted word in exactly those columns, with the weights 20, 5, 1 and 1, and binds the quoted word twice. |
| QueryOutput.FilterTexts | backend/internal/search/postgres_query.go:157-198 | Three of these texts, letter by letter: name : word, - name : word, and { name } : word. |
| QueryParser.Parser.ParseImplicitExpr | backend/internal/search/postgres_query.go:143-156 | Juxtaposition loop, equal to the recursive tail. |
| QueryParser.Parser.ParseNotExpr | backend/internal/search/postgres_query.go:129-142 | NOT loop, equal to the recursive tail. |
| QueryParser.Parser.ParseAndExpr | backend/internal/search/postgres_query.go:115-128 | AND loop, equal to the recursive tail. |
| QueryParser.Parser.ParseOrExpr | backend/internal/search/postgres_query.go:101-114 | OR loop, equal to the recursive tail; terminates on every token list. |
| QueryParser.CompilePostgresQuery | backend/internal/search/postgres_query.go:301-321 | Tokenizer, parser and late filling of $1 compose to the specified compilation, errors included. |
| QueryOutput.QuotedIsRead | backend/internal/search/postgres_query.go:90-92 | Quoted text is read back as it was, whatever is in it and whatever follows. |
| QueryOutput.OperatorsCompile | backend/internal/search/postgres_query.go:101-156 | Two words with nothing, NOT, AND or OR between them: the two conditions in that order under the right connective, their arguments and the keywords. |
| QueryOutput.StarredWordCompiles | backend/internal/search/postgres_query.go:284-300 | A starred word is searched as a bare prefix, or quoted if it has other scripts or both letters and digits. |
| QueryOutput.JoinedWordsCompile | backend/internal/search/postgres_query.go:284-300 | Words joined by a plus are one quoted phrase. |
| QueryOutput.AnchoredWordCompiles | backend/internal/search/postgres_query.go:284-296 | An anchored word must also begin one of the columns that its filter leaves; if there is none, nothing is found, and three arguments are bound all the same. |
| QueryOutput.NearWordsCompile | backend/internal/search/postgres_query.go:247-282 | Two words near each other: the operator with the distance, 10 without one, and the words quoted in quotes. |
| QueryOutput.NumberIsRead | backend/internal/search/postgres_query.go:262-275 | A distance is read with or without a sign and leading zeros, within the range of 64-bit numbers. |
| QueryOutput.OnlyDigitsAreRead | backend/internal/search/postgres_query.go:262-275 | Nothing but digits behind at most one sign is read as a distance. |
| QuerySyntax.EveryTreeIsWritten | backend/internal/search/postgres_query.go:101-300 | Every query tree has a form that fits the grammar, with parentheses where an operand is weaker than its place. |
| QuerySyntax.ApartWithoutNear | backend/internal/search/postgres_query.go:247 | A form without a bare word NEAR in front of a phrase is never written like a NEAR group. |
| QueryBalance.OrShrinks | backend/internal/search/postgres_query.go:101-300 | On every token list, whatever the parser accepts takes no more opening parentheses than closing ones. |
| QueryReadBack.CompileReadsBack | backend/internal/search/postgres_query.go:101-300 | Every form, redundant parentheses included, is compiled to the translation of its tree unless a phrase is misread: one followed at once by a quoted colon, or a bare NEAR by a quoted parenthesis. Then it is refused, provided that NEAR groups are opened without quotes. |
| QueryMeaning.EmitMeans | backend/internal/search/postgres_query.go:97-300 | The translation of a tree has the tree's truth value under every interpretation of the atomic matches. |
| QueryReadBack.CompilePreservesMeaning | backend/internal/search/postgres_query.go:101-321 | The compiled condition with its arguments is true exactly when the tree is: implicit AND tightest, then NOT, AND, OR, left-associative, filters narrowing. |
| QueryReadBack.QueryTextKeepsMeaning | backend/internal/search/postgres_query.go:301-321 | The same from query text with syntax through to the evaluated condition and its arguments. |
| QueryReadBack.QuotedColonIsMisread | backend/internal/search/postgres_query.go:157-165 | The exception is real: a phrase beside a quoted colon is always refused. |
| QueryReadBack.QuotedParenthesisIsMisread | backend/internal/search/postgres_query.go:247 | So is the other: the word NEAR beside a quoted parenthesis is refused. |
| QueryReadBack.QuotedGroupIsReadFirst | backend/internal/search/postgres_query.go:247-282 | And so is the proviso: with a NEAR group opened by a quoted parenthesis a misread phrase is accepted, as part of one group. |
| QueryReadBack.ArgumentsAreUsed | backend/internal/search/postgres_query.go:284-321 | All arguments behind $1 are used if and only if every anchored term of the query keeps a searched column. |
| QueryReadBack.AnchoredPathIsUnused | backend/internal/search/postgres_query.go:284-296 | The query `path : ^ word` compiles to a condition without placeholders and binds two arguments besides $1. |
| QueryTrees.AcceptedTextHasTree | backend/internal/search/postgres_query.go:301-321 | Text is accepted if and only if its tokens spell some form in which no phrase is misread, and for every such form the result is the translation of its tree, true exactly when the tree is, with all arguments used exactly when its anchored terms keep a column. |
| PlainSearch.PlainWordsArePrefixes | backend/internal/search/sqlite_index.go:76-104 | Plain words without OR or AND between them in whatever case compile if and only if none is AND, OR or NOT in capitals, and then to a condition that holds exactly when every word matches as a prefix. |
| PlainSearch.PunctuatedIsOnePhrase | backend/internal/search/sqlite_index.go:76-104 | Text with punctuation but no syntax is searched as one literal phrase. |
| PlainSearch.PlainNotIsRefused | backend/internal/search/sqlite_index.go:82-104 | For instance, NOT between two plain words is starred too, and the query is refused. |
| PlainSearch.SyntaxByText | backend/internal/search/sqlite_index.go:82-87 | A query is left as it is if and only if it has one of five characters, or OR or AND between spaces in whatever case. |
| PlainSearch.FuzzyByText | backend/internal/search/sqlite_index.go:76-104 | Blanks around it aside, a query is left as it is, or put in quotes, or has a star put behind every word. |
| PlainSearch.FieldsByText | backend/internal/search/sqlite_index.go:94 | The words are what stands between blanks of any kind and number. |
| QueryBinding.OrBinds | backend/internal/search/postgres_query.go:93-100 | Through the whole parser, arguments only grow and every emitted placeholder holds the value it was emitted for, within the columns it may use. |
| QueryBinding.CompiledIsBound | backend/internal/search/postgres_query.go:301-321 | After $1 is filled in, every placeholder is in range and right, $1 is used by none, and each anchored term that lost its columns leaves exactly two arguments unused. |
| QueryBinding.PostgresSearchWhere | backend/internal/search/postgres_index.go:88-106 | The clause carries the compiled query and one placeholder per page id, each holding its value; it fails exactly when the query does. |
| QueryBinding.SearchStatement | backend/internal/search/postgres_index.go:107-150 | LIMIT and OFFSET get placeholders of their own and disturb none of the others. |
| PageSearch.ResultList.PushTopResult | frontend/src/lib/pageSearch.ts:36-61 | Bounded insertion keeps the first limit entries of inserting into the whole sorted list. |
| PageSearch.SearchFlatPageSearchItems | frontend/src/lib/pageSearch.ts:144-170 | The items found match, are ordered by falling score and at a tie by title, and are at most the limit; every matching item left out means a full list whose last item scores more, or as much with a title that is not behind. They are the first of the stable sort. |
| PageSearch.BestAreFound | frontend/src/lib/pageSearch.ts:31-61 | The same about the cut of the sorted matches, for every score, title order, list of items and limit. |
| PageSearch.StableSortCharacterised | frontend/src/lib/pageSearch.ts:31-34 | That sort is the only sorted arrangement that keeps equal items in their order. |
| PageSearch.TopOfInsert | frontend/src/lib/pageSearch.ts:36-61 | Cutting to the limit before inserting loses nothing. |
| LoginLimiter.LoginAttemptTracker.RecordAttempt | backend/internal/core/auth/login_attempt_tracker.go:34-62 | One attempt, as the next event of the run: the time joins the admitted ones exactly if the attempt is not refused. |
| LoginLimiter.AtMostFiveAttemptsPerWindow | backend/internal/core/auth/login_attempt_tracker.go:8-62 | Over every run with a steady clock, any six admissions of a user since the last reset take fifteen minutes or more. |
| LoginLimiter.RefusedExactlyWhileLocked | backend/internal/core/auth/login_attempt_tracker.go:34-62 | On every run, with any clock: an attempt is refused if and only if the admissions since the last reset form whole batches of five and the last is less than fifteen minutes old. |
| LoginLimiter.ResetUnlocks | backend/internal/core/auth/login_attempt_tracker.go:64-68 | After a reset the next attempt is admitted at any time, as the first one. |
| LoginLimiter.OthersDoNotCount | backend/internal/core/auth/login_attempt_tracker.go:34-68 | What other users do changes nothing about a user's admissions. |
| WriteGate.RunKeepsSound | backend/internal/restore/writegate.go:15-90 | Every interleaving of freezes, releases, requests keeps lock holder, flag and in-flight count consistent. |
| WriteGate.HeldUntilReleased | backend/internal/restore/writegate.go:23-51 | From a successful Freeze until its own release nothing is in flight and nothing is admitted, whatever others do, old releases called again included. |
| WriteGate.FreezesExclude | backend/internal/restore/writegate.go:23-51 | In every reachable state at most one Freeze is held, and then no request is in flight. |
| WriteGate.ClosingUndoesItself | backend/internal/restore/writegate.go:23-51 | A failing Freeze that got the lock, and a release, free the lock and leave the flag as it would be without the call. |
| WriteGate.GivingUpReopens | backend/internal/restore/writegate.go:37-47 | A Freeze that gives up can always finish undoing, and admitted requests are not touched. |
| WriteGate.ReleasingReopens | backend/internal/restore/writegate.go:49-50 | A release opens the gate and frees the lock. |
| WriteGate.OutsideStaysEngaged | backend/internal/restore/writegate.go:27-30 | While the flag is raised from outside every Freeze fails, none lowers it, and nothing is admitted. |
| WriteGate.OpenGateAdmits | backend/internal/restore/writegate.go:81-90 | In every reachable state a request is let in if and only if the flag is not raised from outside and no Freeze is under way, and nothing else changes. |
| WriteGate.LeavingCountsOut | backend/internal/restore/writegate.go:81-90 | A request that leaves is counted out. |
| WriteGate.UndisturbedFreeze | backend/internal/restore/writegate.go:23-51 | From every reachable state, a Freeze that nobody disturbs is refused if another one is on, fails if the flag is up, is held at once if nothing is in flight, and waits with the flag up otherwise. |
| WriteGate.SharedGate.Freeze | backend/internal/restore/writegate.go:23-51 | The method, with other threads between its actions, ends held and drained, or refused, or closed with lock and flag restored. |
| WriteGate.SharedGate.Thaw | backend/internal/restore/writegate.go:49-50 | The release function, other threads between its actions. |
| Swap.Swapper.constructor | backend/internal/restore/swap.go:305-318 | A new swapper has touched no item. |
| Swap.Swapper.SwapAll | backend/internal/restore/swap.go:325-344 | Success puts every staged item in place; what is not staged stays in any case; at every moment each original is live or at its pre-restore path; other restores' remains are not touched; fails only if the disk did. |
| Swap.Swapper.RollbackAll | backend/internal/restore/swap.go:354-383 | Without an error every live path is exactly as before, absent items included; with one, the originals are still there to try again. |
| Swap.Swapper.CommitAll | backend/internal/restore/swap.go:388-397 | Nothing but pre-restore copies is touched, at any moment, and unless something fails none of them is left. |
| RestoreJob.Job.Start | backend/internal/restore/job.go:45-59 | A running job is not started again; a new run forgets the last one. |
| RestoreJob.Job.Finish | backend/internal/restore/job.go:77-83 | The outcome is recorded; needsIntervention stays as it was, unlike the comment says. |
| RestoreJob.Job.FinishNeedsIntervention | backend/internal/restore/job.go:88-95 | The outcome is recorded and intervention asked for. |
| RestoreManager.Manager.Pause | backend/internal/favorites/favorites_store.go:189-204 | A paused store is suspended even on failure; closing takes its log away; pausing it again does nothing. |
| RestoreManager.Manager.Replace | backend/internal/favorites/favorites_store.go:213-237 | Success serves what is on disk and may begin a log of that database only; failure leaves the store suspended. |
| RestoreManager.Manager.ReopenAllStores | backend/internal/restore/manager.go:507-537 | Reported success means no store is suspended and each serves what is on disk; no log becomes stale. |
| RestoreManager.Manager.Recover | backend/internal/restore/manager.go:276-286 | A failure before the swap opens the gate; without intervention the instance works again. |
| RestoreManager.Manager.RollbackOrIntervene | backend/internal/restore/manager.go:436-465 | Either everything is as before and works, or the gate stays closed and intervention is asked for; originals survive both; a log can be stale beside an original only if pausing its store failed. |
| RestoreManager.Manager.RemoveStaleWalSidecars | backend/internal/restore/manager.go:329-342 | On success no staged database has write-ahead log files left; those of any other database are never touched, nor anything else, at any moment. |
| RestoreManager.Manager.RunFromZipPath | backend/internal/restore/manager.go:243-425 | Over every combination of failures: without intervention the gate is open, every store serves what is on disk, and items are all restored or all original; intervention keeps the gate closed if and only if the failure came after the swap began; originals are safe until the commit, all restored from it on; no stale log stays beside a replaced database, and one beside an original takes a second failure; one failure alone never needs intervention. Success means that branding, public access, sessions and author labels were read again on the restored files, and unless something failed nothing is left behind; the phase and the version warning are those of the outcome. |
| RestoreManager.Manager.TriggerRestore | backend/internal/restore/manager.go:80-94 | An instance that needs intervention or runs a restore starts none; otherwise the outcome above, and the next restore can be triggered whatever this one leaves behind. |
| RestoredTree.RestoresAddUp | backend/internal/restore/manager.go:243-425 | After any number of restores, failed ones among them, and of edits between them, each item is that of its last edit or of the last successful snapshot holding it, whichever came later, or the first one. |
| TransferRestore.InstallComponent | backend/internal/transfer/restore.go:116-140 | One rename round keeps every prior component findable at every moment. |
| TransferRestore.RestoreDatabase | backend/internal/transfer/restore.go:141-169 | From the database to the journal's removal, errors that may hide a commit included: it succeeds if and only if nothing failed, and then every step was taken in order; the kind of a failure says whether the transaction was committed and the server reloaded. |
| TransferRestore.RestoreBackup | backend/internal/transfer/restore.go:27-171 | At every moment and crash point: no journal means wholly old or wholly new, files and database; with the journal every prior component is live or among the previous files; refused only for a cause. Success means that every step was taken in order and nothing but the final removal of the staging directory has failed. The kind of a failure tells exactly whether the journal was written, the transaction committed, the server reloaded. |
| PostgresRestore.RunPostgres | backend/internal/restore/postgres.go:11-66 | A failed restore with a pending journal keeps the gate held, drained, and asks for intervention; otherwise the gate is let go, no journal remains, and the instance is wholly new or wholly old. Success means that every step of the restore was taken. It asks for intervention only if the journal is there or could not be looked for. |
| LegacyImport.CopyFiles | backend/internal/transfer/import.go:179-191 | The target holds files only from the installed list; success copies every persistent file and no other. |
| LegacyImport.CleanUp | backend/internal/transfer/import.go:210-225 | Cleaning up ends rolled back without files and journal, or keeps the journal. |
| LegacyImport.Commit | backend/internal/transfer/import.go:199-239 | An unknown commit keeps files and journal; a known one ends complete or keeps the journal. |
| LegacyImport.ImportLegacy | backend/internal/transfer/import.go:35-240 | At every moment the target is rolled back and empty, or has the journal, or is complete with receipt and without journal; a dry run changes nothing. It fails if and only if the target was not empty or something failed; every step is taken in order, and the journal stays behind a failure only if cleaning up failed too. It reports the data as committed exactly if the commit succeeded, and the commit as unknown exactly if it was reached and did not. |
| ImportExecution.PlanStore.TryStartExecution | backend/internal/importer/plan_store.go:102-138 | Starts from zero unless running or completed, and always otherwise if the file can be written; the start is persisted before it is reported. |
| ImportExecution.PlanStore.UpdateExecutionProgress | backend/internal/importer/plan_store.go:191-219 | Progress and partial result replace the stored ones together, in memory and on disk. |
| ImportExecution.PlanStore.FinishExecution | backend/internal/importer/plan_store.go:140-189 | Completed, canceled or failed by the error; success of the call means the file says so. |
| ImportExecution.PlanStore.RequestCancel | backend/internal/importer/plan_store.go:221-244 | Only a running import not yet canceled can be canceled. |
| ImportExecution.CountsAddUp | backend/internal/importer/executor.go:146-225 | Created, updated and skipped entries together are all entries. |
| ImportExecution.EntryKeepsMatch | backend/internal/importer/executor.go:139-225 | Adding the entry of the next item keeps entries, order and counters in step with the plan. |
| ImportExecution.CompletedAccountsForAll | backend/internal/importer/executor.go:93-244 | A completed import has one entry per plan item in plan order, and its counters sum to the plan length. |
| ImportExecution.Execute | backend/internal/importer/executor.go:93-244 | A first run needs the tree of the plan and a later one the tree its last entry left, else nothing is touched; the entries of earlier runs stay and each further item adds one, until the end or a cancel request that is there before an item; the last report holds the result, and its tree is the one left. |
| ImportExecution.ProcessItem | backend/internal/importer/executor.go:128-225 | An item with a cancel request before it is not begun; any other is announced in the state file, gets its entry, and is reported with the tree it left, unless creating its page failed. |
| ImportExecution.CheckTree | backend/internal/importer/executor.go:93-106 | The two refusals, by the hash in the plan, the hash in the saved result and the hash of the tree. |
| ImportExecution.RunToEnd | backend/internal/importer/importer_service.go:331-343 | What the run came to is on record if the file can be written: completed with the whole result, canceled with what there was and no error, or failed with an error and no result. |
| ImportExecution.ExecuteCurrentPlan | backend/internal/importer/importer_service.go:167-198 | A plan that neither runs nor is completed is run from the start, and ends as failed exactly if the tree is not the one it was made for; a result is returned exactly for an import recorded as completed. |
| ImportExecution.ResumeInterruptedExecution | backend/internal/importer/importer_service.go:378-401 | A running plan is run to its end from its state, and is recorded as failed exactly if the tree is not the one its last entry left; any other plan is not touched. |
| ImportExecution.Lives | backend/internal/importer/importer_service.go:66-88 | Over any number of processes, each stopped after any write, the state file stays sound: running states have exactly their processed items, completed ones all. |
| CodeSpans.DetectFenceStart | backend/internal/importer/content_transformer.go:814-840 | The loops compute the fence test; CodeBlocks.FenceByText says what it accepts. |
| CodeSpans.FindFenceEnd | backend/internal/importer/content_transformer.go:842-869 | The line loop computes the end of the fenced block; CodeBlocks.BlockIsCode says where that is. |
| CodeSpans.FindInlineCodeEnd | backend/internal/importer/content_transformer.go:871-885 | The search computes the end of the code span; CodeBlocks.SpanIsCode says where that is. |
| CodeSpans.SegmentsAreTheContent | backend/internal/importer/content_transformer.go:768-812 | For any content the segments put together are the content. |
| CodeSpans.SegmentsAlternate | backend/internal/importer/content_transformer.go:768-812 | Plain and code alternate; plain segments hold no backtick, code segments are not empty, so the scan always advances. |
| CodeSpans.RewriteOutsideCodeSpans | backend/internal/importer/content_transformer.go:768-812 | Exactly the plain segments are rewritten, code is copied, the first error is returned. |
| CodeBlocks.FenceByText | backend/internal/importer/content_transformer.go:814-840 | A fenced block opens exactly at a line that shows at most three spaces and then three backticks or three tildes. |
| CodeBlocks.BlockIsCode | backend/internal/importer/content_transformer.go:842-869 | It is its opening line of n marks, the lines none of which shows at most three spaces and n marks, and the line that does, whatever follows on it, with its newline; in front of it the plain text is plain, behind it the text is cut on. |
| CodeBlocks.OpenBlockIsCode | backend/internal/importer/content_transformer.go:842-869 | A block without such a line is everything up to the end. |
| CodeBlocks.SpanIsCode | backend/internal/importer/content_transformer.go:871-885 | A span of n backticks that opens no block ends behind the next run of n or more, behind the whole of it. |
| CodeBlocks.SpanEndsExactly | backend/internal/importer/content_transformer.go:871-885 | It ends where the rule has it that asks for a run of exactly n if and only if that next run has n backticks or is the end of the content. |
| CodeBlocks.LongRunCloses | backend/internal/importer/content_transformer.go:871-885 | For instance, one backtick is closed by two. |
| CodeBlocks.OpenSpanIsCode | backend/internal/importer/content_transformer.go:871-885 | Without such a run it is everything up to the end. |
| CodeBlocks.PlainTextIsPlain | backend/internal/importer/content_transformer.go:768-812 | Text without backticks and lines that open a block is one plain segment. |
| CodeBlocks.BehindNewline | backend/internal/importer/content_transformer.go:768-812 | Text behind a newline is cut as if it stood alone. |
| CodeBlocks.PageWithBlock | backend/internal/importer/content_transformer.go:768-812 | Plain lines, a fenced block and a rest: the lines are rewritten, the block is copied, the rest is treated as a page of its own, the first error ends the work. |
| CodeRescan.RescanFindsTheSameCode | backend/internal/importer/content_transformer.go:74-82 | Scanning the output of a pass that leaves its segments plain finds the same code, span by span, between the rewritten texts. |
| CodeRescan.TwoPassesAreOne | backend/internal/importer/content_transformer.go:67-83 | The two passes, the second on the output of the first, equal one pass with both rewriters. |
| ImportLinks.RewriteMarkdownLinks | backend/internal/importer/content_transformer.go:86-142 | Only link destinations are rewritten; every other byte is copied. |
| ImportLinks.SplitMarkdownDestination | backend/internal/importer/content_transformer.go:628-643 | Wrapper, address and title together are the destination. |
| ImportLinks.PiecesAreTheContent | backend/internal/importer/content_transformer.go:86-142 | For any segment the copied text and the destinations put together are the segment. |
| ImportLinkText.LinkIsPiece | backend/internal/importer/content_transformer.go:86-142 | A link or an image is a label without a closing bracket in it, and at once behind it a parenthesis with everything up to the one that closes it, nested ones counted. |
| ImportLinkText.CharIsCopied | backend/internal/importer/content_transformer.go:86-142 | Every other character is copied. |
| ImportLinkText.LabelIsCopied | backend/internal/importer/content_transformer.go:86-142 | So is a label that no parenthesis follows at once. |
| ImportLinkText.OpenLabelIsCopied | backend/internal/importer/content_transformer.go:86-142 | A label that does not end is copied with all the rest. |
| ImportLinkText.OpenDestinationIsCopied | backend/internal/importer/content_transformer.go:725-739 | So is a destination whose parenthesis is not closed. |
| ImportLinkText.AddressByText | backend/internal/importer/content_transformer.go:628-643 | The address of a destination stands in angle brackets, or goes up to the first space or tab. |
| ImportLinkText.DestinationIsRewritten | backend/internal/importer/content_transformer.go:266-288 | The address alone is resolved; what is found replaces it between bracket and title, the blanks around them being dropped, and a destination for which nothing is found stays. |
| ImportLinkText.BlankDestinationStays | backend/internal/importer/content_transformer.go:266-288 | A blank destination stays, and nothing is resolved. |
| ImportLinkText.LinkIsRewritten | backend/internal/importer/content_transformer.go:86-142 | All of this at a link of the text, with what the pass makes of the rest, the first error ending the work. |
| ImportLinks.UnresolvedSegmentIsUnchanged | backend/internal/importer/content_transformer.go:266-288 | A segment where no destination resolves comes out byte for byte. |
| ImportLinks.UnresolvedPageIsUnchanged | backend/internal/importer/content_transformer.go:67-142 | A page where no link outside code resolves comes out of the pass byte for byte. |
| ImportRescan.TransformContent | backend/internal/importer/content_transformer.go:67-83 | The two passes in turn, the first error ending the work. |
| ImportRescan.TransformIsOnePass | backend/internal/importer/content_transformer.go:67-142 | With the real link pass: if the addresses given to the links of the page bring no newline or backtick beyond the old query and fragment, the second scan finds the code of the page, span by span, and two passes are one. |
| ImportRescan.CodeStaysOrMoves | backend/internal/importer/content_transformer.go:67-142 | For any resolver, when those addresses bring no newline: the second scan finds the code of the page if and only if none of them has a backtick. |
| ImportRescan.ResolvedIsPath | backend/internal/importer/content_transformer.go:292-320 | Every address of the resolver is a page path or asset path, followed by the query and fragment of the old one. |
| ImportRescan.ResolvedByText | backend/internal/importer/content_transformer.go:292-320 | For an address cut at its query or fragment: nothing and external ones lead nowhere, a page of the plan comes first, else the file of the package, its error being passed on; query and fragment are kept. |
| ImportRescan.ImportLeavesCodeAlone | backend/internal/importer/content_transformer.go:67-83 | When no path that the links of the page lead to has a newline, the import finds the code of the page again if and only if no such path has a backtick; then its two passes are one. |
| ImportRescan.BacktickMovesCode | backend/internal/importer/content_transformer.go:266-320 | A packaged file named with a backtick in its extension does move the code: the text of a code span reaches the second rewriter. |
| Preferences.RunKeepsSound | frontend/src/stores/userSettings.ts:44-91 | Every interleaving of writes, PUTs, sessions and late or failed answers keeps the queue in order and the shown value that of the last write of the epoch. |
| Preferences.QuietShowsConfirmed | frontend/src/stores/userSettings.ts:64-91 | Once no write is pending the shown value is the last confirmed or loaded one. |
| Preferences.PutsStayInTheirSession | frontend/src/stores/userSettings.ts:73-77 | No PUT goes out in a session of another user than the one who made the write. |
| Preferences.QuietAgreesWithServer | frontend/src/stores/userSettings.ts:51-140 | A quiet browser agrees with the server if and only if a PUT of the epoch has taken effect or the last loaded value is what the user's last effective PUT left; in particular if the last load was this user's and nothing else took effect since the server answered it. |
| Preferences.AnswerOvertakesPut | frontend/src/stores/userSettings.ts:120-140 | A run where a PUT made before the settings arrive takes effect and is not shown. |
| Preferences.FailedLoadShowsDefault | frontend/src/stores/userSettings.ts:137-139 | A run where a failed load leaves the default language, English, in view. |
| Preferences.LateAnswerIsShownToTheNext | frontend/src/App.tsx:60-66 | A run where the answer to an earlier user's request is shown to the next user. |
| Preferences.PutOutlivesItsSession | frontend/src/stores/userSettings.ts:73-81 | A run where a PUT of the user's last session takes effect behind the new one. |
| Preferences.ReportsAreTrue | frontend/src/stores/userSettings.ts:57-91 | In every run a save is confirmed only when nothing newer is pending and the server has the shown value; an error is shown only when the value has gone back to the confirmed or loaded one. |
| Preferences.ReportsByHistory | frontend/src/stores/userSettings.ts:57-91 | Over every run: writes have their turn in order; a write is sent unless there was a reset since it was made, and its end is reported, as saved or as an error, if and only if there was neither a reset nor another write since; it is skipped otherwise. |
| Preferences.PrefWriter.WritePref | frontend/src/stores/userSettings.ts:64-75 | The write is shown and queued with its sequence number and epoch. |
| Preferences.PrefWriter.RunNext | frontend/src/stores/userSettings.ts:73-77 | The next queued write is sent, or skipped when the session changed. |
| Preferences.PrefWriter.PatchSucceeds | frontend/src/stores/userSettings.ts:78-81 | The confirmed value moves on, unless the session changed. |
| Preferences.PrefWriter.PatchFails | frontend/src/stores/userSettings.ts:82-89 | Only the latest write of the session rolls back, to the confirmed value. |
| Preferences.PrefWriter.LoadAnswers | frontend/src/stores/userSettings.ts:121-136 | The answer of whichever request it is shown and starts a fresh epoch. |
| Preferences.PrefWriter.Clear | frontend/src/stores/userSettings.ts:209-221 | The default is shown and a fresh epoch started. |

## Left out

- Percent-decoding of links, colons in the first segment of a relative link, and Unicode in paths: link text is taken as characters with no decoding.
- Goldmark and Go's regular expressions: parsed link candidates and code ranges are inputs, and so are the matches that overlap removal compacts. Wiki-link titles, their resolution and the link store are not part of the model.
- The texts of errors and warnings, and the removal of duplicate warnings.
- SQL: a condition is a tree over uninterpreted matches; NULL and three-valued logic, ranking, highlighting and the execution of statements are not modelled. Upper-casing and lower-casing cover the characters that matter to the operators.
- scoreItem and localeCompare: the score and the title comparison of the page search are parameters, the comparison a total preorder.
- Logging, clocks and timers: a timeout is a choice of the model, the limiter takes the clock as an argument.
- Panics during a restore, which the source turns into a request for intervention, and the reload of the branding cache, which the source does not repeat on rollback.
- RestoreManager.Manager.TriggerRestore: does not model a second trigger between the check for intervention and the start of the job, which are separate steps in the source; the job runs to its end inside the call.
- RestoreManager.Manager.Replace: does not model that opening a database may migrate it; a store serves the content its file had when it was opened, and every configured service has a file when the server runs. A log stands for the database it was begun for; what is in it is not modelled, so neither is a log that an unconfigured store left behind and the restore removes.
- Swap.Swapper.constructor: takes the freshness of the time-stamped pre-restore names and of the staging directory as given, as a number per restore, and os.Stat as truthful.
- TransferRestore.StageBackup: does not model the checks on the archive; staged components are among the names that are swapped, as the manifest check demands. Checks of schema, versions and emptiness are steps that may fail.
- WriteGate.SharedGate.Freeze: does not say when a Freeze must succeed, as WriteGate.UndisturbedFreeze does; the wait may end at any poll, as a context may be cancelled at any time. Direct calls of Engage by the older restore are the flag raised from outside.
- PostgresRestore.RunPostgres: does not model a server without a write gate, which the source refuses at once, nor the phases inside the reload of the server, which is one step that may fail.
- LegacyImport.ImportLegacy: does not model which paths are persistent, the rows that are written, or directories; they are inputs or steps that may fail.
- ImportExecution.Execute: does not model what an item does to the wiki beyond its tree hash, nor notes and error texts; a state canceled between two reports is not covered by the soundness of the file.
- ImportExecution.PlanStore.RequestCancel: is the only operation of other requests while an import runs; replacing the plan then is refused by the service in a separate check that is not modelled.
- ImportLinks.RewriteMarkdownLinks: does not model how an address is resolved; the resolution is a parameter. ImportRescan.ResolveDestination has its shape; URL parsing, percent-decoding, the look-up of pages and the upload of assets are parameters there, and so is the rewriter of wiki links.
- Preferences.ReportsAreTrue: takes a failed PUT as one that has changed nothing, although an answer can be lost behind an effect; of the settings one field is modelled. A change of the logged-in user without a logout between, and other tabs, are not modelled.
- LinkRescan.RewrittenDocumentRescans: does not decide documents whose changed destinations hold brackets, parentheses, blanks or backslashes; there a rewrite can change which bracket closes an enclosing label.
- PageSlugs.SubtreeLinkKeepsMeaning: takes the text of one link; that the text mentions the old path is a parameter of it, and a fact about the text in SubtreeRescan.SubtreeDocumentKeepsMeaning.
- SubtreeRescan.SubtreeDocumentKeepsMeaning: takes from the two parses which links they match, as LinkSplice does, and is under the condition of LinkRescan.RewrittenDocumentRescans.
- QueryReadBack.CompileReadsBack: does not decide the forms whose bare word NEAR stands before an unquoted parenthesis, which the query language reads as a NEAR group, nor the misread ones that also have a NEAR group opened by a quoted parenthesis; QueryTrees.AcceptedTextHasTree says for every text what is accepted.
- ImportRescan.ImportLeavesCodeAlone: does not decide pages with an address that brings a newline, which no page or asset path has unless the name of a packaged file does.
- The offline restore, snapshots, uploads, routing, command line, React components and the settings, favourites and branding services: plumbing around the parts above.
