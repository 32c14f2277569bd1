# Verification of the Core checking and rewriting engines

This project models the parts of the repository that check or rewrite something on their own: the
authenticated header census, the cross-reference and colouring pipeline of the generated Ada
documentation, the warning comparison, the dependency closure of a built executable, the lifetime
probe, the strided layout rules of the C ABI, the history router of the documentation shell, and two
slot-table trackers. Each is modelled as the program is written: loops are methods with invariants,
objects and file-level variables are classes, and every method is proved against a function or a
property that is then reasoned about in lemmas.

`dafny verify dfyconfig.toml` checks everything.

## How it is built

| module | models |
|---|---|
| `GitTree`, `TreeProof` | the hash of a Git tree, its unique decoding, and the proof that a listing covers a pinned subtree |
| `Blanking`, `Guards` | reversible removal of annotations; the stack of preprocessor guards |
| `Patterns`, `Markup`, `Documents`, `Offsets`, `Weaving`, `Lexemes`, `Tokens` | the regular expressions as explicit scanners, decoded text with raw offsets, splicing, and snippets as documents |
| `Highlight`, `Resolution`, `Links` | colouring, name resolution, and links |
| `Pages`, `Anchors`, `Discovery` | whole pages as lists of sections, the anchors on them, and what is found before linking |
| `Pipeline`, `Processing` | whole runs with their manifest, and the loops of a run |
| `Recolouring`, `Acceptance` | exactly when a fresh site is linked, a linked one coloured, and the result accepted again |
| `Sample`, `Instances` | one small site, word by word, that is accepted or refused as its anchor and heading are chosen |
| `Spans`, `Examples`, `Headings` | guide examples with anchors; heading identities |
| `AdaCode`, `AdaIndex`, `AdaRules`, `AdaScopes` | the Ada declaration index, the expressions by which it reads lines, and what it holds |
| `Warnings`, `LineZero` | warning identities, and a warning that loses its own |
| `Closure` | the worklist over shared libraries and the symbol-version check |
| `Observer`, `SlotTable` | the allocation observer; the two 64-slot trackers |
| `Layout`, `Router` | strided N-dimensional layouts and selected views; the history router |

An error raised by a program is `None` (or a false result): which message it carries is not told
apart. Text is a sequence of characters; where the program works on encoded bytes, each character
stands for one byte. A hash is a parameter. The tree proof assumes that no two of the texts it
compares collide; the runs over pages assume it only where success is to imply a condition
(`Recolouring.Exactly`), never where a condition is to imply success.

## Where the code does less than one might expect

- A Git tree may spell the mode of a directory `40000`. The descent compares with `040000` only, so
  a proof in that spelling hides every directory below the prefix and a listing of the visible files
  alone is accepted (`TreeProof.UnpaddedModeHidesDirectories`). A name may hold the bytes of the
  entry behind it, since names are not searched for NUL: such a proof, in canonical modes and
  identifiers, hides a file (`TreeProof.SwallowedNameHidesFile`). An accepted listing is exact if the
  visited entries are spelled plainly, free of both, and where no directory is empty only if they are
  (`TreeProof.AcceptedListingExact`). This needs a readable way to the prefix: recorded ancestors that
  can be decoded, or pinned ones in which the text of the next directory stands at the beginning of
  entries only. The latter is a matter of the pinned tree alone, and holds where no other name ends
  in that text and no identifier holds it (`TreeProof.OrdinaryUnmistaken`). Without it a directory
  `foo40000 modules` is taken for `modules`, and a proof of a subtree that does not exist is accepted
  (`TreeProof.MistakenDirectory`).
- Preparing a header twice is preparing it once exactly if the first time leaves no annotation call
  behind (`Blanking.PreparedTwice`); `CV_WRAP_AS(CV_WRAP_AS(x))` leaves one
  (`Blanking.NestedPreparedTwice`).
- A character reference can decode to several characters, and then two lexemes share one raw span.
  Colouring succeeds exactly when no two coloured lexemes touch one reference
  (`Highlight.HighlightExact`); `&ampif;` is a snippet that fails (`Highlight.SharedReferenceFails`).
- The digest of what is outside the snippets takes the first occurrence of each body out of its
  section, and that may be in the heading. A fresh page is linked exactly if every snippet is
  linkable and, where it gets a link, what its section leaves to the digest is header and footer
  (`Recolouring.FreshPageLinks`). A page whose heading repeats its snippet is refused, though the
  same page under another heading is linked (`Instances.RepeatedHeadingRefused`).
- Anchors are looked for in the whole page as `id=` behind a word boundary, so the address of a link
  may be taken for one. A run on what another has written is accepted, and writes nothing, exactly if
  no page now repeats an anchor (`Pipeline.RunIsIdempotent`); told from the fresh site, exactly if
  its own anchors and those its links are taken for do not repeat (`Acceptance.FreshRunAgain`). A
  page that links twice to its section `a-id=1` is written by the first run and refused by all
  later ones (`Instances.LinkedTwiceRefused`).
- The rescan of `cpp_declarations` counts line feeds but indexes `splitlines`. The two line numbers
  are equal exactly if every line boundary so far is a line feed (`Guards.LineFeedsCount`). The
  guards are equal when the lines between the numbers are whole blocks or hold no directive
  (`Guards.WholeBlocksAgree`, `Guards.NoDirectiveAgrees`), and when these lines break off inside
  blocks, exactly if they leave no group open and add no turn (`Guards.BrokenOffDiffers`). A
  form feed in front of `#if A` makes the declaration below it lose its guard
  (`Guards.FormFeedMisleads`).
- A warning reported for line 0 is looked up from the last line of the file. Its identity survives
  blank lines and comments put in front of the source exactly if the last line is blank or a comment,
  or if the search from the top identifies nothing (`Warnings.LineZeroShifted`). In a source that is
  the line `package X is new Y;` it does not survive (`LineZero.LineZeroMisses`). Whole logs give the
  same identities exactly if every warning survives or some other has none anyway
  (`Warnings.IdentitiesShifted`). The complaint that a warning crossed unrelated code never comes up
  (`Warnings.GapIsClear`).
- Back and Forward read the frame's address outside the handler's `try`, so a frame that has gone to
  a foreign origin is left where it is (`Router.Shell.Traverse`).

## Model

| member | source | states |
|---|---|---|
| `GitTree.GitTreeHash` | scripts/core_api_discovery.py:539-544 | the loop builds the payload of the entries and hashes it behind its length, or fails where an identifier is not hexadecimal |
| `GitTree.DecodePayload` | scripts/core_api_discovery.py:541-543 | decoding a payload gives the entries back, up to leading zeros of the mode and the spelling of identifiers |
| `GitTree.PayloadInjective` | scripts/core_api_discovery.py:541-543 | two decodable lists have one payload if and only if they are equal after normalization |
| `GitTree.FrameInjective` | scripts/core_api_discovery.py:544 | different payloads give different texts to hash |
| `GitTree.CanonicalNormal` | scripts/core_api_discovery.py:541-543 | on six-digit modes and lower-case identifiers normalization loses nothing |
| `TreeProof.DescendInto` | scripts/core_api_discovery.py:579-588 | the recursive loop appends exactly the descent of its path, and ends on every finite proof, cyclic or not |
| `TreeProof.CheckTreeProof` | scripts/core_api_discovery.py:566-590 | the check accepts exactly if every tree hashes to its identifier, is connected to its parent, the root is the pinned one, and the listing is the descent as a multiset |
| `TreeProof.Located` | scripts/core_api_discovery.py:568-576 | every proved path whose way is readable names a tree of the pinned tree, with the same payload, and with the same entries up to normalization where its own are decodable |
| `TreeProof.DescendIsCensus` | scripts/core_api_discovery.py:579-588 | the descent lists all non-tree entries of the true subtree, when the visited entries are spelled plainly |
| `TreeProof.CoveringVisits` | scripts/core_api_discovery.py:579-590 | a descent that covers a subtree without empty directories has visited plainly spelled entries only |
| `TreeProof.AcceptedListingExact` | scripts/core_api_discovery.py:566-590 | an accepted listing is exactly the census of the pinned subtree if the visited entries are spelled plainly, and, where no directory is empty, only if; the way to the subtree is clear in the pinned tree or decodable in the proof |
| `TreeProof.AcceptedListingsAgree` | scripts/core_api_discovery.py:566-590 | two plainly spelled proofs of one pinned tree accept only one listing |
| `TreeProof.HonestAccepted` | scripts/core_api_discovery.py:547-590 | the proof and census collected from the pinned tree itself are always accepted |
| `TreeProof.UnpaddedModeHidesDirectories` | scripts/core_api_discovery.py:579-590 | a proof whose directories are spelled without the leading zero is accepted with a listing that omits them |
| `TreeProof.SwallowedNameHidesFile` | scripts/core_api_discovery.py:541-590 | a proof in canonical modes and identifiers is accepted in which the name of one file holds the next, which the listing omits |
| `TreeProof.OrdinaryUnmistaken` | scripts/core_api_discovery.py:541-543 | a directory cannot be mistaken if no name in its tree ends in its text, no identifier holds it, and no mode ends like that of a directory |
| `TreeProof.MistakenDirectory` | scripts/core_api_discovery.py:568-590 | an identifier that swallows the front of the name "foo40000 modules" makes a proof of "modules" accepted though there is no such directory |
| `Blanking.BlankPass` | scripts/core_api_discovery.py:109-113 | one pass records all matches and blanks exactly them, line ends excepted |
| `Blanking.Prepare` | scripts/core_api_discovery.py:97-114 | the result has the input's length, differs from it exactly in the recorded ranges, and restores to it; the edits are sorted and disjoint |
| `Blanking.EditsApart` | scripts/core_api_discovery.py:109-114 | the edits of both passes never overlap, and sorting puts them one behind the other |
| `Blanking.PreparedExactly` | scripts/core_api_discovery.py:93-114 | exactly the recorded ranges are blank, and line ends stay where they were |
| `Blanking.PrepareReversible` | scripts/core_api_discovery.py:97-114 | writing every annotation back at its range gives the input |
| `Blanking.NoWordLeft` | scripts/core_api_discovery.py:103-113 | scanning the result for annotation words finds none |
| `Blanking.PreparedTwice` | scripts/core_api_discovery.py:97-114 | preparing the result again changes nothing if and only if no call is left: a name that stands, parted from its parentheses and filled by white space and what is gone |
| `Blanking.NestedPreparedTwice` | scripts/core_api_discovery.py:97-114 | a call in the arguments of another leaves one |
| `Guards.GuardLines` | scripts/core_api_discovery.py:117-129 | every line is recorded with the groups open in front of it |
| `Guards.RescanGuards` | scripts/audit_core_api.py:201-209 | the rescan for a declaration ends with the groups open in front of its line, turns tested in the other order |
| `Guards.CompareForms` | scripts/core_api_discovery.py:117-129 | the one-pass record and the rescan agree on every line |
| `Guards.BlockLeavesNothing` | scripts/core_api_discovery.py:123-128 | a balanced block leaves the stack as it was, on any stack |
| `Guards.GuardsOfBalancedFile` | scripts/core_api_discovery.py:117-129 | on a balanced file every line stands under exactly the blocks around it, each with its branches so far |
| `Guards.StandsOnLine` | scripts/audit_core_api.py:181-201 | the line index counted by line boundaries is that of the line of splitlines whose place holds the character |
| `Guards.LineFeedsCount` | scripts/audit_core_api.py:184-201 | counting line feeds gives that index if and only if every line boundary so far is a line feed |
| `Guards.GuardsAt` | scripts/audit_core_api.py:183-212 | what is recorded for the line of a declaration, and what the rescan reports for its line number: the groups open in front of either line |
| `Guards.WholeBlocksAgree` | scripts/audit_core_api.py:201-212 | both are the same when the lines between the two numbers are whole blocks and lines without a directive |
| `Guards.NoDirectiveAgrees` | scripts/audit_core_api.py:201-212 | in particular when none of them is a directive |
| `Guards.BrokenOffDiffers` | scripts/audit_core_api.py:201-212 | when these lines begin in a group and break off inside blocks, they are the same if and only if no group is left open and no turn was taken |
| `Guards.BrokenOffOutside` | scripts/audit_core_api.py:201-212 | outside all groups, if and only if no group is left open |
| `Guards.BalancedGuards` | scripts/audit_core_api.py:183-212 | in a balanced file both are the blocks around a line, each for its own number |
| `Guards.FormFeedMisleads` | scripts/audit_core_api.py:184-212 | a form feed in front of a directive makes a declaration behind it lose the guard recorded for its line |
| `Patterns.MatchPrinted` | scripts/link_gnatdoc_types.py:26-31 | what a printed pattern of literals and delimited runs matches are its own captures |
| `Patterns.PrintMatched` | scripts/link_gnatdoc_types.py:26-31 | whatever is matched is the printed form of its captures |
| `Offsets.DecodedOffsets` | scripts/link_gnatdoc_types.py:64-72 | the decoded text with start and end of every character's raw unit |
| `Offsets.CellsOrdered` | scripts/link_gnatdoc_types.py:64-72 | starts and ends never decrease and lie inside the raw text |
| `Offsets.SpliceReversed` | scripts/link_gnatdoc_types.py:342-344 | the reverse loop splices all markup around its raw spans |
| `Offsets.SpliceWoven` | scripts/link_gnatdoc_types.py:342-344 | splicing from the back never disturbs an offset still pending: the result reads as gaps and wrapped spans |
| `Weaving.SpliceIsDoc` | scripts/highlight_gnatdoc_ada.py:44-47 | the spliced text is a clean document, with damaged tags exactly if two spans overlap |
| `Documents.StripShow` | scripts/highlight_gnatdoc_ada.py:29-31 | stripping spans from a shown document removes exactly its colours |
| `Documents.PlainShow` | scripts/link_gnatdoc_types.py:56-61 | plain accepts a shown document exactly without colours and strays, and gives its words |
| `Documents.LinksShow` | scripts/highlight_gnatdoc_ada.py:61-62 | the links found in a shown document are its links |
| `Lexemes.AdaFits` | scripts/highlight_gnatdoc_ada.py:19-27 | every lexeme is nonempty, inside the text, and coloured with an approved class |
| `Highlight.CollectInserts` | scripts/highlight_gnatdoc_ada.py:36-43 | the loop over lexemes collects the inserts of the coloured ones, in order |
| `Highlight.HighlightText` | scripts/highlight_gnatdoc_ada.py:34-47 | the text with every coloured lexeme wrapped |
| `Highlight.RenderSnippet` | scripts/highlight_gnatdoc_ada.py:52-58 | texts between links are coloured, links stay as they are |
| `Highlight.HighlightSnippet` | scripts/highlight_gnatdoc_ada.py:50-63 | the coloured snippet or the error of either integrity test |
| `Highlight.HighlightExact` | scripts/highlight_gnatdoc_ada.py:29-63 | colouring succeeds if and only if only links are marked up and no two coloured lexemes touch one reference; then stripping gives the input back and the links are the same |
| `Highlight.SingleCharactersSucceed` | scripts/highlight_gnatdoc_ada.py:34-63 | where each reference stands for one character, colouring never fails |
| `Highlight.SharedReferenceFails` | scripts/highlight_gnatdoc_ada.py:34-63 | a reference for several characters that hold two lexemes cannot be coloured |
| `Tokens.CheckBalanced` | scripts/link_gnatdoc_types.py:202-206 | the profile is accepted exactly if no parenthesis closes too early and none stays open |
| `Tokens.CollectPositions` | scripts/link_gnatdoc_types.py:209-224 | the positions collected are exactly the type marks |
| `Tokens.TypePositions` | scripts/link_gnatdoc_types.py:192-225 | the type marks of a balanced profile in order, or an error |
| `Tokens.PositionsInText` | scripts/link_gnatdoc_types.py:47-49 | every position is a name inside the text, in order and without overlap |
| `Resolution.ScopesExact` | scripts/link_gnatdoc_types.py:297-312 | the scope loop links a name if and only if the nearest scope that declares it has it once and as a target, all nearer scopes known, supported and free of it |
| `Resolution.UseLinks` | scripts/link_gnatdoc_types.py:315-324 | a use clause links a name if and only if every used package is usable and exactly one offers it, as a target |
| `Resolution.SimpleNameLinked` | scripts/link_gnatdoc_types.py:256-324 | both together: exactly when a simple name is linked, and to what |
| `Resolution.NearerBlocks` | scripts/link_gnatdoc_types.py:297-312 | a name declared in a scope is never linked to a scope outside it |
| `Resolution.NearerDeclarationWins` | scripts/link_gnatdoc_types.py:297-312 | a visible declaration added to a nearer scope takes the link over or removes it |
| `Resolution.SelectedNameLinked` | scripts/link_gnatdoc_types.py:272-296 | a linked selected name names a visible owner whose prefix nothing shadows |
| `Links.CollectLinks` | scripts/link_gnatdoc_types.py:330-341 | the inserts are those of the linked type marks, in order, each around its raw span |
| `Links.RenderLinks` | scripts/link_gnatdoc_types.py:327-346 | the linked snippet, or the error of the text test, with the counts of linked, ambiguous and unsupported names and of families |
| `Links.LinkingExact` | scripts/link_gnatdoc_types.py:327-346 | linking succeeds if and only if the snippet is free of tags, its profile readable, no two links overlap and every address fits into an attribute; then plain gives the snippet back and its links are those resolved |
| `Links.SingleCharactersLink` | scripts/link_gnatdoc_types.py:327-346 | a tag-free readable snippet in which every reference stands for one character, with fitting addresses, is always linked, and the texts between its links are of the same kind |
| `Links.CountsAreMarks` | scripts/link_gnatdoc_types.py:331-341 | the links counted are those written |
| `Anchors.FoundOnPage` | scripts/link_gnatdoc_types.py:162-174 | what is found on a page by its opening tags does not depend on the bodies of its snippets |
| `Anchors.SnippetIds` | scripts/link_gnatdoc_types.py:173 | in a snippet whose text holds no anchor, the anchors findall captures are those its link addresses are taken for |
| `Anchors.HeaderAnchors` | scripts/link_gnatdoc_types.py:173 | a section header has exactly its own anchor besides those of the text around it |
| `Anchors.IdsOnPage` | scripts/link_gnatdoc_types.py:173-174 | the anchors of a page, told from its texts, headers and bodies |
| `Anchors.IdsElsewhere` | scripts/link_gnatdoc_types.py:173-174 | replacing the bodies changes the anchors inside the bodies only |
| `Discovery.MatchProfile` | scripts/link_gnatdoc_types.py:124-145 | the loop finds a declaration exactly if one, and no other, begins with the words of the snippet completely |
| `Discovery.MatchExact` | scripts/link_gnatdoc_types.py:124-145 | the same of the declarations as a whole |
| `Discovery.FindTargets` | scripts/link_gnatdoc_types.py:176-189 | the section loops succeed if and only if every section is declared, types agree with their headings and none is described twice; then the targets are exactly the described types with their sections |
| `Discovery.PagesAndTargets` | scripts/link_gnatdoc_types.py:157-189 | the loop over pages with its tests of headings, packages, snippet count and anchors, and over their sections, computes what the runs start from |
| `Discovery.FoundTargetsFit` | scripts/link_gnatdoc_types.py:186-188 | targets found from such pages fit into link attributes |
| `Discovery.DiscoveredFit` | scripts/link_gnatdoc_types.py:157-189 | so what discovery finds on a site can be written into link attributes |
| `Pages.RewrittenPage` | scripts/link_gnatdoc_types.py:403-407 | a page with replaced bodies is cut into the same sections again, with the new bodies |
| `Pipeline.SettledBody` | scripts/link_gnatdoc_types.py:390-403 | the body a run leaves strips to the linked form and reads as the recorded snippet |
| `Pipeline.PageStays` | scripts/link_gnatdoc_types.py:376-410 | discovery reads off a page a run has written what it read before, its anchors aside |
| `Pipeline.PageAgain` | scripts/link_gnatdoc_types.py:376-410 | a page just written passes every test again and is left as it is |
| `Pipeline.RunIsIdempotent` | scripts/link_gnatdoc_types.py:354-420 | after any successful run, one on its pages and manifest that asks for no more, checking or not, is accepted with the same counts and writes nothing if and only if no page repeats an anchor |
| `Processing.ProcessSnippet` | scripts/link_gnatdoc_types.py:390-402 | one turn of the inner loop gives the new body, the recorded snippet and its links, or fails exactly where the run function does |
| `Processing.ProcessSections` | scripts/link_gnatdoc_types.py:388-403 | the loop over sections gives what the run function says of the page's sections |
| `Processing.ProcessPage` | scripts/link_gnatdoc_types.py:376-410 | the tests before and after rewriting and the new page, as the run function has them |
| `Processing.ProcessFiles` | scripts/link_gnatdoc_types.py:376-410 | the loop over pages gives what the run function says of all files |
| `Processing.ProcessSite` | scripts/link_gnatdoc_types.py:354-420 | a whole run, from discovery to what is written, computes the result of which the theorems about runs speak |
| `Recolouring.FreshPageLinks` | scripts/link_gnatdoc_types.py:383-410 | a fresh page is linked if and only if it holds no marker yet and every snippet is linkable: readable, declared once, its links apart, and no link or a section that keeps its outside |
| `Recolouring.MarkupOutside` | scripts/link_gnatdoc_types.py:349-351 | a section keeps its outside when its body gets markup if and only if it lost its own body to the digest before |
| `Recolouring.PageColours` | scripts/link_gnatdoc_types.py:391-410 | a page just linked is coloured if and only if in every snippet no two coloured lexemes share a reference, and its section keeps its outside or nothing is coloured |
| `Recolouring.FreshSiteLinks` | scripts/link_gnatdoc_types.py:354-412 | linking a fresh site reaches its coverage test if and only if every page is linkable |
| `Recolouring.LinkThenColour` | scripts/link_gnatdoc_types.py:354-420 | after linking, colouring succeeds if and only if no page repeats an anchor and every linked snippet is colourable |
| `Recolouring.LinkThenColourThenCheck` | scripts/link_gnatdoc_types.py:354-420 | and then every later run accepts the site and writes nothing if and only if no page repeats an anchor |
| `Acceptance.FreshRunAgain` | scripts/link_gnatdoc_types.py:354-420 | told from the fresh site: after linking, every run without colour accepts the result if and only if the anchors of its headers and those its links are taken for do not repeat; always if no address is taken for an anchor |
| `Acceptance.LinkColourCheck` | scripts/link_gnatdoc_types.py:354-420 | told from the fresh site: colouring succeeds if and only if these anchors do not repeat and all is colourable, and then every later run is accepted |
| `Acceptance.SimpleIsLinkable` | scripts/link_gnatdoc_types.py:327-346 | a tag-free readable snippet whose references stand for one character each is linkable in its place |
| `Acceptance.SimpleIsColourable` | scripts/highlight_gnatdoc_ada.py:34-63 | and what linking makes of it can be coloured |
| `Acceptance.SimpleSiteAccepted` | scripts/link_gnatdoc_types.py:354-420 | a site of such snippets is linked, then coloured, then accepted by every later run |
| `Instances.LinkedTwiceRefused` | scripts/link_gnatdoc_types.py:173-174 | a section whose anchor holds id= is linked to twice on its own page: the first run succeeds and every later one is refused |
| `Instances.RepeatedHeadingRefused` | scripts/link_gnatdoc_types.py:349-351 | a page whose heading repeats its snippet is refused; under another heading the same page is linked |
| `Spans.SortedApart` | scripts/verify_core_examples.py:87-90 | sorted by start, spans lie one behind the other if and only if no two overlap |
| `Examples.EscapeIsCharwise` | scripts/verify_core_examples.py:91-95 | the three replacements of html.escape act on each character alone |
| `Examples.DecodeEscaped` | scripts/verify_core_examples.py:91-95 | decoding an escaped text gives the text back |
| `Examples.ExampleCode` | scripts/verify_core_examples.py:87-100 | the sweep accepts positions if and only if no two overlap, and builds the anchored example |
| `Examples.ExampleKeepsText` | scripts/verify_core_examples.py:67-100 | with all tags off and references decoded an example is exactly its text |
| `Examples.ExampleCovers` | scripts/verify_core_examples.py:88-96 | every position is anchored, with the text in front and behind reading as the text in front and behind it |
| `Examples.AnchoredReads` | scripts/verify_core_examples.py:93-95 | an anchor reads as exactly its span |
| `Examples.MaskText` | scripts/verify_core_examples.py:69-73 | exactly comments, literals and attributes are blanked |
| `Examples.FoundOutsideHidden` | scripts/verify_core_examples.py:68-79 | a spelling found in the masked text stands in the text and in no comment, literal or attribute |
| `Headings.UniqueIdentity` | scripts/render_gnatdoc_guides.py:66-73 | the suffix loop ends and takes the first candidate not yet used |
| `Headings.Identities` | scripts/render_gnatdoc_guides.py:66-73 | headings are pairwise different, each the first free candidate of its slug; only an empty slug fails |
| `Headings.NumberedIsOne` | scripts/render_gnatdoc_guides.py:66-73 | the titles decide all identities |
| `AdaCode.CodeTokens` | scripts/compare_gnatdoc_warnings.py:50-78 | the two loops give the code of a line, or fail on an unterminated literal |
| `AdaCode.CodeOfShown` | scripts/compare_gnatdoc_warnings.py:50-78 | the code of a line put together from characters, literals and a comment is the characters, with a blank for every literal |
| `AdaCode.EveryLineSpelled` | scripts/compare_gnatdoc_warnings.py:50-78 | every line can be put together that way |
| `AdaCode.ScanParentheses` | scripts/compare_gnatdoc_warnings.py:333-344 | the character loop over one line of a declaration |
| `AdaCode.DepthsMean` | scripts/compare_gnatdoc_warnings.py:333-344 | it ends at the first semicolon outside all parentheses, breaks at the first parenthesis too many, and else carries the balance |
| `AdaIndex.DeclarationSpan` | scripts/compare_gnatdoc_warnings.py:325-354 | the last line, signature text and depth of a declaration, within 80 lines |
| `AdaIndex.DeclarationIndex` | scripts/compare_gnatdoc_warnings.py:114-239 | the line loop with its scope stack and pending generics, and the loops it calls, give the index |
| `AdaIndex.FindRecordEnd` | scripts/compare_gnatdoc_warnings.py:278-289 | the loop finds the first line at which the ends have caught up with the headers of records, and none exactly if there is no such line |
| `AdaIndex.GenericFormals` | scripts/compare_gnatdoc_warnings.py:246-275 | the loop collects the formals between generic and the package |
| `AdaIndex.EnumerationLiterals` | scripts/compare_gnatdoc_warnings.py:303-322 | the two loops place every literal at its first occurrence in the lines of its type |
| `AdaRules.ProgramRulesSane` | scripts/compare_gnatdoc_warnings.py:31-104 | the expressions of the program match nothing on a line without code |
| `AdaScopes.HeadersAreOpen` | scripts/compare_gnatdoc_warnings.py:122-239 | the headers taken for open are exactly those no end has closed, counting ends, in the order of their lines |
| `AdaScopes.StackIsChain` | scripts/compare_gnatdoc_warnings.py:122-239 | the scope stack holds their names, and no end comes without a header |
| `AdaScopes.IndexIsAdded` | scripts/compare_gnatdoc_warnings.py:122-239 | the index holds what the visited lines add, in order, and nothing else |
| `AdaScopes.ScopesAreOpenHeaders` | scripts/compare_gnatdoc_warnings.py:122-239 | every declaration of the index has for its scope the chain of package and record headers still open at its line, or generic where none is |
| `AdaScopes.HeadersAllEnd` | scripts/compare_gnatdoc_warnings.py:235-238 | where there is an index, every header has its end |
| `Warnings.LocateDeclaration` | scripts/compare_gnatdoc_warnings.py:457-495 | the declaration a warning names, searching down blank lines and comments, for line 0 from the last line on |
| `Warnings.GapIsClear` | scripts/compare_gnatdoc_warnings.py:450-495 | what the search has passed never decides anything |
| `Warnings.IndexShifted` | scripts/compare_gnatdoc_warnings.py:114-239 | blank lines and comments in front shift every start and end of the index and keep all else, errors included |
| `Warnings.IdentitiesShifted` | scripts/compare_gnatdoc_warnings.py:529-564 | with the log moved down alike, the list of identities is the same, or fails the same, if and only if every warning survives or one that does has no identity |
| `Warnings.NoDelta` | scripts/compare_gnatdoc_warnings.py:584-602 | once all warnings are identified, the comparison reports nothing added and nothing removed |
| `Warnings.LineZeroShifted` | scripts/compare_gnatdoc_warnings.py:468-470 | moved down with its source by blank lines and comments, a warning keeps its identity if and only if it names no line 0, or the last line is blank or a comment, or nothing is identified from the top |
| `LineZero.LineZeroMisses` | scripts/compare_gnatdoc_warnings.py:468-470 | in a source of the one line "package X is new Y;" a warning for line 0 has no identity, and with a comment in front it has one |
| `Closure.Closure` | tests/adacore25/verify_outputs.py:145-164 | the worklist ends, fails exactly if something reachable cannot be accepted, and else finds exactly what is reachable, with every name resolved to its first match |
| `Closure.ReachableIsLeast` | tests/adacore25/verify_outputs.py:145-164 | the closure is the least set with the start and all dependencies of its members |
| `Closure.CheckItem` | tests/adacore25/verify_outputs.py:168-172 | one file passes exactly if every version it requires is defined by the library the name resolved to |
| `Closure.Executable` | tests/adacore25/verify_outputs.py:132-175 | success if and only if all that is reachable is accepted and finds its versions, with the number of versions checked |
| `Observer.EveryRun` | tests/cpp/integer_borrow_lifetime_probe_shim.cpp:43-181 | in every state of every run any live block the observer must release is the session's target and its maker is upstream, every release so far reached the maker of a live block, and the counters tell the session's story |
| `Observer.NoReleaseLost` | tests/cpp/integer_borrow_lifetime_probe_shim.cpp:87-95 | whatever block goes away, its maker takes it back |
| `Observer.AllocationTransparent` | tests/cpp/integer_borrow_lifetime_probe_shim.cpp:54-76 | in a session the observer answers as the allocator behind it |
| `Observer.CountIsReleaseOfFirst` | tests/cpp/integer_borrow_lifetime_probe_shim.cpp:61-91 | the count is 1 exactly if the first block of the session's own was released, else 0, and a target is live exactly in between |
| `Observer.FinishOk` | tests/cpp/integer_borrow_lifetime_probe_shim.cpp:153-181 | finish succeeds if and only if the default can be put back and no target is live; then all is as at first and the session's first default is the default again; otherwise nothing of the session changes |
| `Observer.FinishAfterRelease` | tests/cpp/integer_borrow_lifetime_probe_shim.cpp:168-181 | a session told to wait can finish once its target is released |
| `Observer.AllocationObserver.Begin` | tests/cpp/integer_borrow_lifetime_probe_shim.cpp:112-138 | the new state of begin, setting the default failing or not |
| `Observer.AllocationObserver.ObserverAllocation` | tests/cpp/integer_borrow_lifetime_probe_shim.cpp:54-76 | the new state of allocate: only the first owned block is retargeted |
| `Observer.AllocationObserver.ObserverDeallocation` | tests/cpp/integer_borrow_lifetime_probe_shim.cpp:87-95 | the new state of deallocate |
| `Observer.AllocationObserver.Restore` | tests/cpp/integer_borrow_lifetime_probe_shim.cpp:100-151 | the new state of restore, failing or not |
| `Observer.AllocationObserver.Finish` | tests/cpp/integer_borrow_lifetime_probe_shim.cpp:153-181 | the new state of finish |
| `Observer.AllocationObserver.Perform` | tests/cpp/integer_borrow_lifetime_probe_shim.cpp:43-181 | every event of a run keeps all invariants |
| `Layout.OffsetInSpan` | cpp/opencv_core_shim.h:661-675 | every element of a valid layout lies within sizes[0] * strides[0] elements |
| `Layout.OffsetIncreases` | cpp/opencv_core_shim.h:665-669 | the order of addresses is the lexicographic order of indices, so addresses are distinct |
| `Layout.BytesApart` | cpp/opencv_core_shim.h:668-673 | with the required byte count every element is inside the buffer and no two share a byte |
| `Layout.PackedReachesAll` | cpp/opencv_core_shim.h:648-651 | packed strides reach every element once |
| `Layout.GaplessIffPacked` | cpp/opencv_core_shim.h:648-675 | a valid layout has no gap if and only if it is packed |
| `Layout.ViewAddresses` | cpp/opencv_core_shim.h:1635-1637 | every address of a selected view is the source address of the full index |
| `Layout.ViewNested` | cpp/opencv_core_shim.h:1626-1637 | a view that keeps the last dimension is laid out by the same rule |
| `Layout.ViewNeverAliases` | cpp/opencv_core_shim.h:1626-1637 | different indices of a view are different elements of the source, in the same order |
| `Layout.ViewShowsChosen` | cpp/opencv_core_shim.h:1626-1637 | a view shows all of the selected ranges and nothing else |
| `Layout.LastDroppedBreaks` | cpp/opencv_core_shim.h:1633-1635 | a view is valid if and only if its own last stride is that of one element |
| `Router.RequestedInvertsOuter` | docs/assets/gnatdoc-navigation.js:47-70 | requested reads back the package and symbol outer wrote |
| `Router.RequestedValid` | docs/assets/gnatdoc-navigation.js:58-70 | for any query the answer is a listed package with a symbol of its own or none |
| `Router.ReadPackages` | docs/assets/gnatdoc-navigation.js:11-24 | the loop and the tests behind it succeed if and only if all links are right, none repeats a name or a page, and the fallback is among them; then the two maps hold exactly these links |
| `Router.ReadSymbols` | docs/assets/gnatdoc-navigation.js:25-39 | the symbol loop succeeds if and only if all links lead into the page of their package and none repeats; then the maps hold exactly these links and the handlers can rely on them |
| `Router.Shell.Navigate` | docs/assets/gnatdoc-navigation.js:96-104 | exactly listed addresses are accepted; then mark, address and frame agree and one entry is added for a new package or symbol, none for the present one |
| `Router.Shell.Restore` | docs/assets/gnatdoc-navigation.js:86-95 | the current entry becomes canonical, the mark and an own-origin frame follow it |
| `Router.Shell.Load` | docs/assets/gnatdoc-navigation.js:113-124 | the load handler adds an entry only for a page other than the one agreed on |
| `Router.Shell.Traverse` | docs/assets/gnatdoc-navigation.js:86-124 | Back and Forward with the frame load change no entry, and all three agree again unless the frame is foreign |
| `Router.Shell.Run` | docs/assets/gnatdoc-navigation.js:47-143 | over any sequence of events, each with its loads, mark, address and frame agree after every one, and the history is that of the pages shown one behind the other |
| `Router.HistoryKept` | docs/assets/gnatdoc-navigation.js:47-143 | a run adds at most one entry for every page it shows, and never changes the entries up to the one furthest back it is at |
| `SlotTable.Table.Remember` | tests/layout/r3b_constructor_wrap.c:33-44 | a handle is recorded in a free slot, or the program aborts: exactly on a null handle or a full table |
| `SlotTable.Table.Forget` | tests/layout/r3g_borrow_wrap.c:14-24 | one occurrence of the handle is taken out and counted, anything else is left alone |
| `SlotTable.Table.Balanced` | tests/layout/r3b_constructor_wrap.c:13-60 | live plus destroyed is the number recorded modulo 2^32 |
| `SlotTable.Tracker.ConstructView` | tests/layout/r3b_constructor_wrap.c:68-75 | entries are counted before the call, and the account of views is kept |
| `SlotTable.Tracker.AcquireLease` | tests/layout/r3g_borrow_wrap.c:30-48 | the same for leases |
| `SlotTable.Tracker.DestroyHandle` | tests/layout/r3b_constructor_wrap.c:48-62 | a destroyed handle leaves both tables |
| `SlotTable.Tracker.Run` | tests/layout/r3b_constructor_wrap.c:33-75 | a run survives exactly as long as the plain account says, and then the tables are the multisets recorded and not destroyed |
| `SlotTable.NeverOverfull` | tests/layout/r3g_borrow_wrap.c:38-46 | in every state a surviving run reaches the tables are within bounds and hold no null handle |

## Left out

- Processing.ProcessSite: files come in the order of the sorted packages, with the landing page already set aside; the printed summary and the shape of the JSON manifest (its version numbers) are left out.
- Discovery.PagesAndTargets: the targets that explanatory generic instances add are not modelled; file names of pages may not hold double quotes or angle brackets, as those GNATdoc writes do not.
- TreeProof.AcceptedListingExact: nothing is said where the way to the subtree is neither clear in the pinned tree nor decodable in the proof, beyond the instance above; where a directory of the pinned tree is empty, an exact listing need not be spelled plainly.
- Acceptance.FreshRunAgain: told for snippets whose own text holds no `id=`; for all others `Pipeline.RunIsIdempotent` tells it from the written pages.
- Acceptance.LinkColourCheck: likewise; for all others `Recolouring.LinkThenColourThenCheck` tells it from the written pages.
- Resolution.SimpleNameLinked: the fields of a source (support, imports, use clauses, members) are given; the regular expressions that read them from Ada text are not modelled.
- AdaIndex.DeclarationIndex: which of the errors is raised is not told apart; `AdaRules` spells out the expressions, and the theorems hold for any that match nothing on a line without code.
- Warnings.IdentitiesShifted: the log is already parsed; the caching of indexes per file and the baseline file are left out, and identities are compared as multisets.
- Blanking.Prepare: text stands for encoded bytes.
- Guards.GuardLines: word characters are the ASCII ones; white space and line boundaries are all of Unicode's.
- Closure.Closure: what readelf reports is given per file; the interpreter, the loader configuration and run-path syntax are tests done before the loop.
- Observer.EveryRun: the default allocator is set by the probe alone; the overload that only forwards, the four getters and reference counting are left out, and the process has one thread.
- Layout.BytesApart: extents and strides are unbounded numbers; the header's 32- and 64-bit ranges and the alignment of data are not modelled.
- Router.Shell.Run: a frame that navigates by itself adds entries of its own to a browser's joint history, which are not counted here; scrolling, filtering and focus are left out.
- SlotTable.Tracker.Run: snapshots of bytes and the misaligned pointers handed to the borrower are left out.
- Headings.Identities: the hierarchy of levels and the Markdown parser are left out; slugs use ASCII word characters.
- Examples.ExampleCode: positions are given; the reviewed counts and the tests around a match are constants and expressions of the policy.
- Text classes of the scanners are ASCII: `\w`, `\d` and letters outside it are not modelled.
- File access, Git and compiler processes, SHA-1 and SHA-256, and every other entry point of the C ABI.
- Pinned digests, fixed counts, phrase tables and the planning gates, which compare constants.
