# Eventitude in Dafny

This is a model of the server core of Eventitude, an event-listing application. The back end is Express over SQLite. Organizers publish events and tag them with categories. Attendees ask questions and upvote them. A front-end service keeps unsent event forms as per-user drafts. The model covers:

- the SQLite store and its constraints, held in memory (`Database`): one map per table keyed by AUTOINCREMENT ids, and a set of (event, category) link pairs;
- each statement the handlers issue, as a method on that store that states the whole new state;
- the handlers, as sequential methods or functions that return a `Reply` (an HTTP status with a payload, or an error status with a message);
- the profanity filter (`Profanity`), the category utilities, the authentication middleware (`Auth`), the second, vote-keeping question model (`QuestionModel`) and the draft cache (`DraftService`).

Some outside facts are parameters instead of being computed:

- the clock (`now`, `createdDate`);
- the result of `bcrypt.hash` (`hashed`), the salt, and `bcrypt.compare` (`compare`);
- `jwt.verify` (`verify`), while `jwt.sign` is represented by the claims and lifetime it signs (`Token`);
- whether SQLite accepts an organizer row (`accepted`);
- the schema of tables this code finds but does not create: the `organizers` table and its columns (`Tables.organizers`, `Tables.organizerColumns`) and whether `users` has an `organizer_id` column (`Tables.usersHaveOrganizerId`).

The code sets `PRAGMA foreign_keys = ON`, so an `INSERT OR IGNORE` of a link to an unknown category fails instead of being skipped: `OR IGNORE` does not cover foreign keys. The model follows the code here, not the looser description that such ids are ignored. A failing insert therefore makes `linkEventToCategories` reject. The handlers report that as "Event created but failed to link categories" (or "updated"), while the pairs that passed stay inserted.

The organizer value list and the category hydration are each modelled twice, as written and as intended (see "## Findings"). The rest of the model uses the intended versions.

## Model

| member | source | states |
|---|---|---|
| Profanity.BadWordsWellFormed | fsd-eventitude-starter/app/libs/profanityFilter.js:3-6 | every listed word is non-empty and made of word characters, so `\b` matches can only cover whole words |
| Profanity.TestFrom | fsd-eventitude-starter/app/libs/profanityFilter.js:24-25 | `regex.test` is true exactly when some whole-word, case-insensitive match starts at or after the position |
| Profanity.SomeWordOccurs | fsd-eventitude-starter/app/libs/profanityFilter.js:23-26 | `some` over the words is true exactly when one of them has a whole-word match |
| Profanity.ContainsProfanity | fsd-eventitude-starter/app/libs/profanityFilter.js:20-27 | false for the empty text; otherwise true exactly when a listed word occurs as a whole word, ignoring case |
| Profanity.ContainsProfanityOpt | fsd-eventitude-starter/app/libs/profanityFilter.js:21-26 | an absent field is false (`!text`); a present one is true exactly when a listed word occurs in it as a whole word |
| Profanity.ContainsProfanityValue | fsd-eventitude-starter/app/libs/profanityFilter.js:20-26 | false for any value that is not a string (`typeof text !== 'string'`); for a string, true exactly when a listed word occurs in it as a whole word |
| Profanity.Stars | fsd-eventitude-starter/app/libs/profanityFilter.js:14 | `'*'.repeat(n)` is n stars |
| Profanity.ReplaceFrom | fsd-eventitude-starter/app/libs/profanityFilter.js:13-14 | the global replace keeps the length of the suffix it works on |
| Profanity.MaskWord | fsd-eventitude-starter/app/libs/profanityFilter.js:13-14 | one word's global replace keeps the length, and each position becomes `*` exactly when a match of the word covers it, otherwise keeping its character; `MaskWordIsMaskSet` restates this as a masking set |
| Profanity.FilterWith | fsd-eventitude-starter/app/libs/profanityFilter.js:12-15 | the `forEach` fold over the words keeps the length; `FilterWithMasks` proves it masks exactly the positions some listed word covers in the original text |
| Profanity.Filter | fsd-eventitude-starter/app/libs/profanityFilter.js:8-18 | the loop over the words keeps the length and yields the text with every position covered by a match replaced by `*` |
| Profanity.FilterValue | fsd-eventitude-starter/app/libs/profanityFilter.js:8-9 | a value that is not a string comes back unchanged; a string comes back filtered, with every position inside a whole-word match masked |
| Profanity.MaskSet | fsd-eventitude-starter/app/libs/profanityFilter.js:14 | masking a set of positions keeps the length |
| Profanity.MatchedCharsAreWordChars | fsd-eventitude-starter/app/libs/profanityFilter.js:13 | a whole-word match covers only word characters |
| Profanity.MatchesCoincide | fsd-eventitude-starter/app/libs/profanityFilter.js:13 | two overlapping matches of listed words start together and have the same length |
| Profanity.ReplaceFromAt | fsd-eventitude-starter/app/libs/profanityFilter.js:14 | after one word's replace, each position is `*` exactly when a match of that word covers it |
| Profanity.CoveredPastMatch | fsd-eventitude-starter/app/libs/profanityFilter.js:13-14 | past a match, the positions its start covers from are those covered from its end, since the scan resumes there |
| Profanity.CoveredPastMiss | fsd-eventitude-starter/app/libs/profanityFilter.js:13-14 | where no match starts, the covered positions are those covered from the next position |
| Profanity.MaskWordIsMaskSet | fsd-eventitude-starter/app/libs/profanityFilter.js:13-14 | one word's replace masks exactly the positions its matches cover |
| Profanity.MaskedSetRunClosed | fsd-eventitude-starter/app/libs/profanityFilter.js:12-15 | the masked positions are whole runs of word characters |
| Profanity.RunClosedReachesStart | fsd-eventitude-starter/app/libs/profanityFilter.js:13 | a run-closed masked set that meets a match contains the match's start |
| Profanity.MatchAfterMask | fsd-eventitude-starter/app/libs/profanityFilter.js:12-15 | after earlier words are masked, a later word matches exactly where it matched before outside the masked positions |
| Profanity.FilterWithMasks | fsd-eventitude-starter/app/libs/profanityFilter.js:11-17 | masking the words one after the other masks exactly the positions covered by a match of some listed word in the original text |
| Profanity.CoveredAfterMask | fsd-eventitude-starter/app/libs/profanityFilter.js:12-15 | outside the first word's matches, later words cover the same positions before and after its masking |
| Profanity.FilterKeepsLength | fsd-eventitude-starter/app/libs/profanityFilter.js:12-15 | `filter` keeps the length of the text |
| Profanity.FilterChangesOnlyMatches | fsd-eventitude-starter/app/libs/profanityFilter.js:13-14 | a character changes exactly when it lies inside a whole-word match, and it becomes `*` |
| Profanity.CleanTextUnchanged | fsd-eventitude-starter/app/libs/profanityFilter.js:8-26 | a text `containsProfanity` rejects nothing in passes `filter` unchanged |
| Profanity.FilterRemovesEveryMatch | fsd-eventitude-starter/app/libs/profanityFilter.js:8-26 | no listed word is found in a filtered text |
| Profanity.FilterIdempotent | fsd-eventitude-starter/app/libs/profanityFilter.js:8-18 | filtering twice is filtering once |
| Profanity.MatchInWordOnlyText | fsd-eventitude-starter/app/libs/profanityFilter.js:13 | in a text of word characters only, a match must span the whole text |
| Profanity.EmbeddedWordIgnored | fsd-eventitude-starter/app/libs/profanityFilter.js:13-24 | "stupidity" is neither detected nor masked although it contains "stupid" |
| Common.TrimStart | fsd-eventitude-starter/app/controllers/event.server.controller.js:355 | drops exactly the leading characters `trim` treats as whitespace: ECMAScript's white space and line terminators, U+00A0 and U+FEFF included |
| Common.TrimEnd | fsd-eventitude-starter/app/controllers/event.server.controller.js:355 | drops exactly the trailing characters `trim` treats as whitespace, by the same definition |
| Common.Trim | fsd-eventitude-starter/app/controllers/event.server.controller.js:355 | the trimmed query is empty or starts and ends with a non-whitespace character, and it is a slice of the query with only whitespace cut off on either side |
| Common.TrimEmptyIffBlank | fsd-eventitude-starter/app/controllers/event.server.controller.js:355 | `query.trim() === ''` exactly when every character of the query is whitespace in that sense |
| Common.LowerChar | fsd-eventitude-starter/app/controllers/event.server.controller.js:369-371 | LIKE's case folding: ASCII capitals map to lower case, everything else is kept |
| Common.ContainsIgnoringCase | fsd-eventitude-starter/app/controllers/event.server.controller.js:369-371 | `LIKE '%q%'` holds exactly when q occurs at some offset, ignoring ASCII case |
| Common.SearchFrom | fsd-eventitude-starter/app/controllers/event.server.controller.js:369-371 | the scan finds q at or after the offset exactly when it occurs there |
| Ordering.InsertBy | fsd-eventitude-starter/app/models/category.models.js:7 | inserting adds exactly that element |
| Ordering.SortBy | fsd-eventitude-starter/app/models/category.models.js:7 | `ORDER BY` returns a permutation of the rows |
| Ordering.InsertBySorted | fsd-eventitude-starter/app/models/category.models.js:7 | inserting into a sorted list keeps it sorted |
| Ordering.SortBySorted | fsd-eventitude-starter/app/models/category.models.js:7 | for a total preorder the sorted rows are in order |
| Ordering.SortByKeepsElements | fsd-eventitude-starter/app/models/category.models.js:7 | sorting keeps exactly the rows it was given |
| Ordering.NoDuplicatesByCount | fsd-eventitude-starter/app/models/category.models.js:7 | a list is free of duplicates exactly when no element occurs twice in its multiset |
| Ordering.SortByNoDuplicates | fsd-eventitude-starter/app/models/category.models.js:7 | sorting a list without duplicates yields one without duplicates |
| Ordering.NameLeTotal | fsd-eventitude-starter/app/models/category.models.js:7 | `ORDER BY name` relates any two names |
| Ordering.NameLeTransitive | fsd-eventitude-starter/app/models/category.models.js:7 | `ORDER BY name` is transitive |
| Ordering.NameLeAntisymmetric | fsd-eventitude-starter/app/models/category.models.js:7 | two names each ordered before the other are equal |
| Database.KeysUpTo | fsd-eventitude-starter/database.js:25 | the rows of a table in rowid order: exactly its ids up to the last one issued, ascending |
| Database.Where | fsd-eventitude-starter/app/controllers/question.server.controller.js:11 | a `WHERE` keeps exactly the ids that satisfy it, still ascending |
| Database.LinksWithoutEvent | fsd-eventitude-starter/app/models/category.models.js:89 | the link rows left are exactly those of other events |
| Database.LinksWithoutCategory | fsd-eventitude-starter/database.js:117 | the link rows left are exactly those of other categories |
| Database.AcceptedLinks | fsd-eventitude-starter/database.js:116-118 | a pair is inserted exactly when its event and category both exist |
| Database.LinksOf | fsd-eventitude-starter/database.js:111-119 | the categories linked to an event are exactly those with a link row |
| Database.ReplaceLinks | fsd-eventitude-starter/app/models/category.models.js:89-99 | delete-then-insert leaves the event linked to exactly the given existing ids, and other events' links unchanged |
| Database.AddLinks | fsd-eventitude-starter/app/controllers/event.server.controller.js:32-34 | insert-only linking adds the given existing ids and leaves other events alone |
| Database.LinkablePrefix | fsd-eventitude-starter/app/controllers/event.server.controller.js:36-55 | one more id is linkable exactly when the ids before it are and it names an existing event and category |
| Database.LinkingReadsRows | fsd-eventitude-starter/app/models/category.models.js:89-99 | whether ids are linkable, and which pairs are inserted, depend only on the event and category tables, so deleting the event's links first changes neither |
| Database.NameTakenGrows | fsd-eventitude-starter/database.js:100-105 | a name taken in a table stays taken once rows are only added, so seeding never loses a default |
| Database.EmptyTables | fsd-eventitude-starter/database.js:22-126 | a new database file holds empty tables that satisfy every constraint |
| Database.Database.constructor | fsd-eventitude-starter/database.js:11-126 | opening a database creates the tables and seeds the six default categories, which are then the only categories |
| Database.Database.Seed | fsd-eventitude-starter/database.js:90-106 | after seeding all six defaults are present; seeding again changes nothing; only default rows are ever added |
| Database.Database.InsertCategoryOrIgnore | fsd-eventitude-starter/database.js:100-105 | an existing name leaves the table unchanged with 0 changes; otherwise the row gets the next id |
| Database.Database.InsertUser | fsd-eventitude-starter/database.js:24-33 | a taken email fails the UNIQUE constraint with nothing written; otherwise the user gets the next id |
| Database.Database.UpdateUserNames | fsd-eventitude-starter/database.js:26-27 | an unknown id changes nothing (0 rows); a missing name fails NOT NULL; otherwise only that user's names change |
| Database.Database.SetUserOrganizer | fsd-eventitude-starter/app/controllers/user.server.controller.js:147 | fails where `users` has no `organizer_id`; 0 rows for an unknown user; otherwise sets that user's organizer id |
| Database.Database.InsertOrganizer | fsd-eventitude-starter/app/controllers/user.server.controller.js:115 | fails without the table or when SQLite refuses the row; otherwise stores it under the next id |
| Database.Database.InsertEvent | fsd-eventitude-starter/database.js:42-51 | an organizer who is not a user fails the foreign key with nothing written; otherwise the event gets the next id |
| Database.Database.UpdateEventRow | fsd-eventitude-starter/app/controllers/event.server.controller.js:246 | 0 changes for an unknown id; otherwise exactly that event's columns change |
| Database.Database.DeleteEventRow | fsd-eventitude-starter/database.js:67-116 | 0 for an unknown id; a question still pointing at the event fails the foreign key; otherwise the event and its links go |
| Database.Database.InsertQuestion | fsd-eventitude-starter/database.js:60-69 | an unknown event or user fails the foreign key; otherwise the question gets the next id |
| Database.Database.UpdateQuestionText | fsd-eventitude-starter/database.js:62 | 0 rows for an unknown id; a missing text fails NOT NULL; otherwise only that text changes |
| Database.Database.IncrementUpvotes | fsd-eventitude-starter/app/controllers/question.server.controller.js:143 | 0 for an unknown id; otherwise only that question's count rises by one |
| Database.Database.DeleteQuestionRow | fsd-eventitude-starter/app/controllers/question.server.controller.js:116 | 0 for an unknown id; otherwise exactly that question is removed |
| Database.Database.DeleteQuestionsOfEvent | fsd-eventitude-starter/app/controllers/event.server.controller.js:302 | exactly the event's questions are removed |
| Database.Database.InsertCategory | fsd-eventitude-starter/database.js:78-83 | a missing name fails NOT NULL, a taken one fails UNIQUE, otherwise the row gets the next id |
| Database.Database.UpdateCategoryRow | fsd-eventitude-starter/database.js:80 | 0 for an unknown id; NOT NULL and UNIQUE (against other rows) are enforced; otherwise only that row changes |
| Database.Database.DeleteCategoryRow | fsd-eventitude-starter/database.js:117 | 0 for an unknown id; otherwise the category and its link rows go |
| Database.Database.DeleteLinksOfEvent | fsd-eventitude-starter/app/models/category.models.js:89 | exactly the event's link rows are removed |
| Database.Database.InsertLink | fsd-eventitude-starter/database.js:116-118 | both foreign keys are checked; an existing pair is ignored; otherwise the pair is added |
| Database.Database.InsertLinks | fsd-eventitude-starter/app/controllers/event.server.controller.js:36-55 | the `completed`/`hasError` loop succeeds exactly when every pair passes the foreign keys, and adds the accepted pairs |
| CategoryModel.ViewOf | fsd-eventitude-starter/app/models/category.models.js:5 | the row as selected: `category_id as id`, name and description |
| CategoryModel.AllViews | fsd-eventitude-starter/app/models/category.models.js:5-7 | every category exactly once, in rowid order |
| CategoryModel.ByNameIsPreorder | fsd-eventitude-starter/app/models/category.models.js:7 | ordering rows by name is a total preorder |
| CategoryModel.FindAll | fsd-eventitude-starter/app/models/category.models.js:4-15 | a permutation of all categories, ordered by name |
| CategoryModel.FindById | fsd-eventitude-starter/app/models/category.models.js:17-28 | the row exactly when the id exists |
| CategoryModel.LinkedViews | fsd-eventitude-starter/app/models/category.models.js:68-71 | the join keeps exactly the listed categories linked to the event |
| CategoryModel.GetEventCategories | fsd-eventitude-starter/app/models/category.models.js:67-79 | exactly the categories linked to the event, each once |
| CategoryModel.EventCategoriesAreLinks | fsd-eventitude-starter/app/models/category.models.js:68-71 | the returned ids are exactly the event's link set |
| CategoryModel.Create | fsd-eventitude-starter/app/models/category.models.js:30-41 | fails exactly on a missing or taken name, with nothing written; otherwise the new id |
| CategoryModel.Update | fsd-eventitude-starter/app/models/category.models.js:43-54 | 0 for an unknown id; for an existing one it fails, with nothing written, exactly when the name is missing or taken by another category, and otherwise changes only that row (1) |
| CategoryModel.Delete | fsd-eventitude-starter/app/models/category.models.js:56-65 | the number of rows deleted, 0 for an unknown id; the links cascade |
| CategoryModel.LinkEventToCategories | fsd-eventitude-starter/app/models/category.models.js:81-123 | an absent or empty list keeps the old links; otherwise the event's link set becomes exactly the given existing ids (duplicates give one link), and other events keep theirs |
| CategoriesController.GetCategories | fsd-eventitude-starter/app/controllers/categoriesController.js:4-21 | every category, ordered by name |
| CategoriesController.CreateCategory | fsd-eventitude-starter/app/controllers/categoriesController.js:24-61 | missing name gives 400, taken name gives 400 "Category name already exists", both with nothing written; otherwise the table grows by exactly the new row, returned with its id |
| CategoryUtils.AllPositiveIntegers | fsd-eventitude-starter/app/libs/categoryUtils.js:10-12 | `every` holds exactly when each element is a positive integer |
| CategoryUtils.IsPositiveInteger | fsd-eventitude-starter/app/libs/categoryUtils.js:11 | true exactly for the number value of a positive integer |
| CategoryUtils.ValidateCategoryIds | fsd-eventitude-starter/app/libs/categoryUtils.js:5-13 | false for a non-array; true for []; otherwise exactly when every element is a positive integer |
| CategoryUtils.FormatAll | fsd-eventitude-starter/app/libs/categoryUtils.js:21-25 | one record per element, in order |
| CategoryUtils.DisplayId | fsd-eventitude-starter/app/libs/categoryUtils.js:22 | `cat.id` when truthy, else `cat.category_id`; the result is truthy exactly when one of them is |
| CategoryUtils.FormatCategoriesForDisplay | fsd-eventitude-starter/app/libs/categoryUtils.js:16-26 | [] for a non-array; otherwise the same length and order, id is `cat.id` when truthy else `cat.category_id`, name and description copied |
| CategoryUtils.SetOf | fsd-eventitude-starter/app/libs/categoryUtils.js:36 | the ids an `IN (...)` list names |
| CategoryUtils.CountExisting | fsd-eventitude-starter/app/libs/categoryUtils.js:36-39 | `COUNT(*)` counts each stored category once, so never more than the distinct ids listed, and 0 when none of them is stored |
| CategoryUtils.CheckCategoriesExist | fsd-eventitude-starter/app/libs/categoryUtils.js:29-47 | true for an absent or empty list |
| CategoryUtils.SetOfSize | fsd-eventitude-starter/app/libs/categoryUtils.js:43 | a list has as many distinct ids as entries exactly when none repeats |
| CategoryUtils.SubsetOfSameSize | fsd-eventitude-starter/app/libs/categoryUtils.js:43 | a subset of the same size is the whole set |
| CategoryUtils.CheckExistIffDistinctAndStored | fsd-eventitude-starter/app/libs/categoryUtils.js:36-43 | a non-empty list passes exactly when its ids are distinct and all stored |
| CategoryUtils.DuplicateFails | fsd-eventitude-starter/app/libs/categoryUtils.js:43 | a list naming a category twice fails |
| Hydration.DecimalText | fsd-eventitude-starter/app/controllers/event.server.controller.js:61 | an id as GROUP_CONCAT writes it is a non-empty string of digits |
| Hydration.LeadingDigits | fsd-eventitude-starter/app/controllers/event.server.controller.js:90 | the longest digit prefix `parseInt` reads |
| Hydration.ParseDecimalText | fsd-eventitude-starter/app/controllers/event.server.controller.js:90 | `parseInt` reads back the id GROUP_CONCAT wrote |
| Hydration.ParseInt | fsd-eventitude-starter/app/controllers/event.server.controller.js:90 | an all-digit piece reads as its decimal value |
| Hydration.Join | fsd-eventitude-starter/app/controllers/event.server.controller.js:61-62 | GROUP_CONCAT writes the first piece, then a comma and the rest joined; no pieces give the empty text |
| Hydration.Split | fsd-eventitude-starter/app/controllers/event.server.controller.js:89-91 | `split(',')` yields at least one piece |
| Hydration.SplitPrefix | fsd-eventitude-starter/app/controllers/event.server.controller.js:89-91 | comma-free text in front extends the first piece |
| Hydration.SplitJoin | fsd-eventitude-starter/app/controllers/event.server.controller.js:61-91 | splitting a GROUP_CONCAT of comma-free pieces gives the pieces back |
| Hydration.DecimalTexts | fsd-eventitude-starter/app/controllers/event.server.controller.js:61 | the ids as text, one per id |
| Hydration.Zip | fsd-eventitude-starter/app/controllers/event.server.controller.js:89-92 | the i-th record pairs the i-th id with the i-th name |
| Hydration.HydrateAsWritten | fsd-eventitude-starter/app/controllers/event.server.controller.js:89-92 | an event without categories gets []; otherwise one record per linked category, each with the right id, so only the names can shift |
| Hydration.HydrateIsZip | fsd-eventitude-starter/app/controllers/event.server.controller.js:89-92 | with comma-free names the mapping as written is the pairing |
| Hydration.CommaInNameMisaligns | fsd-eventitude-starter/app/controllers/event.server.controller.js:89-92 | with names "Arts, Crafts" and "Music" the second record gets the name " Crafts" |
| EventController.Refs | fsd-eventitude-starter/app/controllers/event.server.controller.js:89-92 | one `{id, name}` per linked category, in order |
| EventController.EventViewOf | fsd-eventitude-starter/app/controllers/event.server.controller.js:60-92 | the event's columns, `first_name || ' ' || last_name` of its organizer, and exactly its linked categories with their names |
| EventController.ViewCategoriesAsHydrated | fsd-eventitude-starter/app/controllers/event.server.controller.js:61-92 | when no category name has a comma, the split-and-zip of the GROUP_CONCATs gives exactly the event's categories |
| EventController.NewestFirstIsPreorder | fsd-eventitude-starter/app/controllers/event.server.controller.js:68 | `ORDER BY created_date DESC` is a total preorder |
| EventController.SortNewestFirst | fsd-eventitude-starter/app/controllers/event.server.controller.js:68 | sorting keeps the events, orders them newest first and adds no duplicate |
| EventController.ViewsOf | fsd-eventitude-starter/app/controllers/event.server.controller.js:80-93 | one view per listed event, each once |
| EventController.Listing | fsd-eventitude-starter/app/controllers/event.server.controller.js:60-68 | exactly the events that pass the filter, formatted, each once, newest first |
| EventController.GetAllEvents | fsd-eventitude-starter/app/controllers/event.server.controller.js:59-100 | 200 with every event exactly once, newest first |
| EventController.GetEvent | fsd-eventitude-starter/app/controllers/event.server.controller.js:102-151 | 404 "Event not found" for an unknown id, otherwise 200 with the formatted event |
| EventController.GetEventsByOrganizer | fsd-eventitude-starter/app/controllers/event.server.controller.js:413-462 | 200 with exactly the organizer's events, newest first, and `count` equal to their number |
| EventController.Narrow | fsd-eventitude-starter/app/controllers/event.server.controller.js:374-377 | with a category given, every event's categories are just that category |
| EventController.NarrowedHits | fsd-eventitude-starter/app/controllers/event.server.controller.js:369-379 | narrowing keeps exactly the hits, formatted as the search formats them |
| EventController.SearchEvents | fsd-eventitude-starter/app/controllers/event.server.controller.js:351-410 | 400 for an absent, empty or blank query; otherwise 200 with exactly the events whose title or description contains the trimmed query (and that are linked to the category, when one is given), each once, newest first |
| EventController.Requested | fsd-eventitude-starter/app/controllers/event.server.controller.js:25-34 | the listed ids that name stored categories |
| EventController.Offensive | fsd-eventitude-starter/app/controllers/event.server.controller.js:163 | true exactly when the title or the description contains a listed word |
| EventController.LinkEventToCategories | fsd-eventitude-starter/app/controllers/event.server.controller.js:25-57 | an absent or empty list changes nothing; otherwise the link set becomes old ∪ accepted pairs, and the call succeeds exactly when every id is linkable |
| EventController.CreateEvent | fsd-eventitude-starter/app/controllers/event.server.controller.js:153-217 | missing title, date or organizer gives 400 and profanity gives 400, both with nothing written; an unknown organizer gives 500; otherwise the unfiltered event is stored under the next id, linked to exactly the requested existing categories, and 201 returns exactly those categories |
| EventController.UpdateEvent | fsd-eventitude-starter/app/controllers/event.server.controller.js:219-294 | 400 for missing title or date or for profanity; 404 when no row changes; otherwise the row is updated and the event's link set becomes exactly the requested existing ids (empty when none are given), with other events untouched |
| EventController.DeleteEvent | fsd-eventitude-starter/app/controllers/event.server.controller.js:296-349 | 404 with nothing changed for an unknown id; otherwise the event's questions, links and row are gone and nothing else changes |
| EventController.GetCategories | fsd-eventitude-starter/app/controllers/event.server.controller.js:465-482 | 200 with every category, ordered by name |
| QuestionController.QuestionViewOf | fsd-eventitude-starter/app/controllers/question.server.controller.js:8-10 | the question's columns and its author's full name |
| QuestionController.RankedIsPreorder | fsd-eventitude-starter/app/controllers/question.server.controller.js:12 | `ORDER BY upvotes DESC, created_date DESC` is a total preorder |
| QuestionController.SortRanked | fsd-eventitude-starter/app/controllers/question.server.controller.js:12 | ranking keeps the questions, orders them and adds no duplicate |
| QuestionController.QuestionViewsOf | fsd-eventitude-starter/app/controllers/question.server.controller.js:24-32 | one view per listed question, each once |
| QuestionController.GetQuestions | fsd-eventitude-starter/app/controllers/question.server.controller.js:4-40 | exactly the event's questions, each once, by upvotes descending and then newest first |
| QuestionController.CreateQuestion | fsd-eventitude-starter/app/controllers/question.server.controller.js:42-83 | 400 for missing content or user and for profanity, both with nothing written; 500 for an unknown event or user; otherwise the unfiltered text is stored with 0 upvotes and 201 returns the new id |
| QuestionController.UpdateQuestion | fsd-eventitude-starter/app/controllers/question.server.controller.js:85-111 | 404 when no row changes; otherwise only the target's text changes |
| QuestionController.DeleteQuestion | fsd-eventitude-starter/app/controllers/question.server.controller.js:113-138 | 404 when no row is deleted; otherwise exactly that question goes |
| QuestionController.UpvoteQuestion | fsd-eventitude-starter/app/controllers/question.server.controller.js:140-165 | 404 for an unknown id; otherwise exactly that count rises by one and nothing else changes |
| QuestionModel.Voters | fsd-eventitude-starter/app/models/question.models.js:84-89 | the users holding a vote row for the question |
| QuestionModel.VotersAfterAdd | fsd-eventitude-starter/app/models/question.models.js:57-62 | a new vote row adds one voter and leaves other questions alone |
| QuestionModel.VotersAfterRemove | fsd-eventitude-starter/app/models/question.models.js:69-70 | removing a vote row removes at most that voter |
| QuestionModel.MostVotedIsPreorder | fsd-eventitude-starter/app/models/question.models.js:21-22 | `ORDER BY votes DESC, created_at DESC` is a total preorder |
| QuestionModel.QuestionBoard.ViewOf | fsd-eventitude-starter/app/models/question.models.js:18-20 | the row and the asker's name from the left join, absent when no user matches |
| QuestionModel.QuestionBoard.Create | fsd-eventitude-starter/app/models/question.models.js:4-15 | the next id; the question starts with 0 votes, taken as the column default (see Left out) |
| QuestionModel.QuestionBoard.ViewsOf | fsd-eventitude-starter/app/models/question.models.js:18-21 | one view per listed question, each once |
| QuestionModel.QuestionBoard.IdsOfEvent | fsd-eventitude-starter/app/models/question.models.js:21 | exactly the event's question ids, ascending |
| QuestionModel.QuestionBoard.FindByEventId | fsd-eventitude-starter/app/models/question.models.js:17-30 | exactly the event's questions, each once, by votes descending and then newest first |
| QuestionModel.QuestionBoard.FindById | fsd-eventitude-starter/app/models/question.models.js:32-44 | the row exactly when the id exists |
| QuestionModel.QuestionBoard.HasUserVoted | fsd-eventitude-starter/app/models/question.models.js:83-92 | true exactly when the user holds a vote row for the question |
| QuestionModel.QuestionBoard.AddVote | fsd-eventitude-starter/app/models/question.models.js:46-66 | a repeated vote returns 0 and changes nothing; a first vote adds the pair and raises the count by one; the count never exceeds the number of voters |
| QuestionModel.QuestionBoard.RemoveVote | fsd-eventitude-starter/app/models/question.models.js:68-81 | the pair goes; a positive count drops by one even without a vote row; the count never goes below 0 |
| QuestionModel.QuestionBoard.Delete | fsd-eventitude-starter/app/models/question.models.js:94-103 | the question goes only when the caller asked it; otherwise 0 |
| UserController.SignToken | fsd-eventitude-starter/app/controllers/user.server.controller.js:163-167 | the token carries exactly `{userId, email}` and a 24-hour lifetime |
| UserController.ValueFor | fsd-eventitude-starter/app/controllers/user.server.controller.js:106-111 | the value pushed for each recognised column (name, email, user id, date, "Organizer for " + name, email), and NULL for any other column |
| UserController.KeepIn | fsd-eventitude-starter/app/controllers/user.server.controller.js:106-111 | exactly the columns of the fixed list that the table has |
| UserController.KeepInOrder | fsd-eventitude-starter/app/controllers/user.server.controller.js:106-111 | the kept columns follow the order of the list they are taken from, and each appears once when that list is distinct |
| UserController.PushedValues | fsd-eventitude-starter/app/controllers/user.server.controller.js:103-111 | one value per recognised column the table has, the i-th being that column's own value |
| UserController.PushedValuesInFixedOrder | fsd-eventitude-starter/app/controllers/user.server.controller.js:106-111 | the pushed values follow the fixed order name, email, user_id, created_date, description, contact_info, one per recognised column of the table |
| UserController.ValuesFor | fsd-eventitude-starter/app/controllers/user.server.controller.js:106-111 | one value per column, each that column's value |
| UserController.BindRow | fsd-eventitude-starter/app/controllers/user.server.controller.js:101-113 | the insert names every column of the table |
| UserController.AsWrittenOrganizerRow | fsd-eventitude-starter/app/controllers/user.server.controller.js:101-115 | the row the insert binds has exactly the table's columns |
| UserController.BindRowAt | fsd-eventitude-starter/app/controllers/user.server.controller.js:101-115 | the i-th column takes the i-th value, or NULL when the values run out |
| UserController.OrganizerRowFor | fsd-eventitude-starter/app/controllers/user.server.controller.js:105-111 | each recognised column the table has gets its own value (name, email, user id, date, "Organizer for " + name, email), and no other column is set |
| UserController.BindOwnValues | fsd-eventitude-starter/app/controllers/user.server.controller.js:101-113 | binding each column's own value builds the intended row |
| UserController.AlignedColumnsBindIntendedRow | fsd-eventitude-starter/app/controllers/user.server.controller.js:101-113 | when the table's columns are recognised ones in the fixed order, the row as written is the intended row |
| UserController.LeadingIdColumnRecognised | fsd-eventitude-starter/app/controllers/user.server.controller.js:106-108 | of (organizer_id, name, email, user_id) the code recognises name, email and user_id |
| UserController.LeadingIdColumnValues | fsd-eventitude-starter/app/controllers/user.server.controller.js:106-111 | for (organizer_id, name, email, user_id) the values pushed are the name, the email and the user id |
| UserController.LeadingIdColumnBinds | fsd-eventitude-starter/app/controllers/user.server.controller.js:113-115 | binding those three values to those four columns by position gives organizer_id the name, name the email, email the user id and user_id NULL |
| UserController.LeadingIdColumnMisaligns | fsd-eventitude-starter/app/controllers/user.server.controller.js:101-113 | with columns (organizer_id, name, email, user_id) the name lands in organizer_id, the email in name, the user id in email and user_id is NULL |
| UserController.FindByEmail | fsd-eventitude-starter/app/controllers/user.server.controller.js:22-23 | the first row of the scan with that email: no earlier row has it; none when no row has it |
| UserController.UserByEmail | fsd-eventitude-starter/app/controllers/user.server.controller.js:193-208 | a user is found exactly when the email is taken, and it is the one with that email |
| UserController.FirstOrganizerOf | fsd-eventitude-starter/app/controllers/user.server.controller.js:230-234 | the first organizer row of the scan whose user_id is the user: no earlier row names the user; none when no row does |
| UserController.OrganizerOfUser | fsd-eventitude-starter/app/controllers/user.server.controller.js:230-237 | no organizer when the query cannot run (no table, or no `organizer_id` or `user_id` column); otherwise the row with the smallest id naming the user (no smaller id names the user), or none when none does |
| UserController.ResolveOrganizer | fsd-eventitude-starter/app/controllers/user.server.controller.js:225-241 | the user's own organizer id when set, else the organizers lookup, which is null when that query cannot run, else null |
| UserController.Register | fsd-eventitude-starter/app/controllers/user.server.controller.js:8-73 | 400 for a missing field and 409 for a taken email, both with nothing written; otherwise the user is stored under the next id, an organizer is provisioned when possible (with the intended row, see Left out), and the reply is always 201 with the token and an `organizer_id` that is null exactly when no organizer was created |
| UserController.StoreRegistration | fsd-eventitude-starter/app/controllers/user.server.controller.js:49-69 | for an email not yet taken: the user row under the next id with the hash and salt, then the organizer steps with the intended row, so the stored user points at the new organizer exactly when one was created and `users.organizer_id` exists |
| UserController.RegisteredState | fsd-eventitude-starter/app/controllers/user.server.controller.js:56-69 | the user insert followed by the organizer steps yields the store `register` promises |
| UserController.CreateOrganizerForUser | fsd-eventitude-starter/app/controllers/user.server.controller.js:76-159 | without the table or when the insert fails, no organizer and nothing written; otherwise the intended organizer row (`OrganizerRowFor`) under the next id, `users.organizer_id` set where that column exists, and the new id returned |
| UserController.Login | fsd-eventitude-starter/app/controllers/user.server.controller.js:183-259 | 400 for a missing field; 401 "Invalid credentials" for an unknown email and for a wrong password; otherwise 200 with the user's token and resolved organizer id |
| UserController.LoginFailureIsUniform | fsd-eventitude-starter/app/controllers/user.server.controller.js:203-216 | any refused login with both fields given is the same 401, and a successful one belongs to the user with that email and password |
| UserController.GetProfile | fsd-eventitude-starter/app/controllers/user.server.controller.js:268-316 | 500 where `users` has no `organizer_id` column (the SELECT names it); 404 for an unknown user; otherwise the profile with the resolved organizer id |
| UserController.RequestUser | fsd-eventitude-starter/app/controllers/user.server.controller.js:269 | the token's user id when truthy, else the URL parameter |
| UserController.UpdateProfile | fsd-eventitude-starter/app/controllers/user.server.controller.js:318-343 | 404 for an unknown user; 500 for a missing name; otherwise only that user's names change |
| UserController.JoinedUser | fsd-eventitude-starter/app/controllers/user.server.controller.js:383-385 | the user the left join matches, or none |
| UserController.OrganizerEntryOf | fsd-eventitude-starter/app/controllers/user.server.controller.js:395-400 | name is the row's name when truthy, else the joined "first last"; email is the row's when truthy, else the user's |
| UserController.UserAsOrganizer | fsd-eventitude-starter/app/controllers/user.server.controller.js:421-426 | a user listed with id = user_id and name "first last" |
| UserController.AllUsersAsOrganizers | fsd-eventitude-starter/app/controllers/user.server.controller.js:411-433 | every user exactly once, ascending, listed as an organizer |
| UserController.StoredOrganizers | fsd-eventitude-starter/app/controllers/user.server.controller.js:381-400 | every organizer row exactly once, ascending, formatted |
| UserController.GetOrganizers | fsd-eventitude-starter/app/controllers/user.server.controller.js:372-408 | the formatted organizers, or every user listed as an organizer when the table is missing or the query fails |
| UserController.OrganizersFallBackToUsers | fsd-eventitude-starter/app/controllers/user.server.controller.js:376-426 | without the table every user appears as an organizer with id = user_id and name "first last" |
| Auth.FirstFrom | fsd-eventitude-starter/app/middleware/auth.js:7 | the first offset of the pattern at or after the start, or none when there is none |
| Auth.RemoveFirst | fsd-eventitude-starter/app/middleware/auth.js:7 | the text unchanged when the pattern is absent, otherwise its first occurrence cut out |
| Auth.BearerTokenExtracted | fsd-eventitude-starter/app/middleware/auth.js:7 | a header `Bearer t` yields the token t |
| Auth.ExtractToken | fsd-eventitude-starter/app/middleware/auth.js:7 | `undefined` exactly without the header; a header without `Bearer ` is the token as it is |
| Auth.BareBearerLeavesNoToken | fsd-eventitude-starter/app/middleware/auth.js:7-9 | the header `Bearer ` yields the empty token |
| Auth.HeaderWithoutPrefixIsToken | fsd-eventitude-starter/app/middleware/auth.js:7 | a header without `Bearer ` is taken whole as the token |
| Auth.Authenticate | fsd-eventitude-starter/app/middleware/auth.js:6-27 | no token gives 401 and a failed verification gives 400, both without `next` and with the request unchanged; otherwise `req.user` is the claims, `req.userId` their user id, and `next` is called once |
| DraftService.StorageKeysDistinct | eventitude-frontend/src/services/draftService.js:10-12 | different users have different keys |
| DraftService.StorageKey | eventitude-frontend/src/services/draftService.js:10-12 | the prefix `eventDrafts_` followed by exactly the user id |
| DraftService.WithoutId | eventitude-frontend/src/services/draftService.js:49-50 | exactly the drafts with another id, in their order |
| DraftService.SavedAfter | eventitude-frontend/src/services/draftService.js:63-67 | exactly the drafts saved strictly after the cutoff, in their order |
| DraftService.DraftStore.CurrentUserId | eventitude-frontend/src/services/draftService.js:6-8 | the stored id, or `anonymous` when it is missing or empty |
| DraftService.DraftStore.GetDrafts | eventitude-frontend/src/services/draftService.js:36-45 | [] for an anonymous user, otherwise the user's stored list or [] |
| DraftService.DraftStore.SaveDraft | eventitude-frontend/src/services/draftService.js:15-33 | an anonymous user stores nothing; otherwise the new draft, carrying the user's id, goes in front and the old drafts follow in order |
| DraftService.DraftStore.DeleteDraft | eventitude-frontend/src/services/draftService.js:48-51 | every draft with the id goes and the rest keep their order, under the user's key only |
| DraftService.DraftStore.ClearAllDrafts | eventitude-frontend/src/services/draftService.js:54-57 | the user's key is removed, so `getDrafts` is [] |
| DraftService.DraftStore.CleanupOldDrafts | eventitude-frontend/src/services/draftService.js:60-70 | exactly the drafts saved within the last thirty days stay, in order |
| DraftService.DraftStore.SaveToStorage | eventitude-frontend/src/services/draftService.js:73-76 | only the user's key is written |

## Left out

- Crypto: `bcrypt.hash`, the salt, `bcrypt.compare`, `jwt.sign` and `jwt.verify` are not computed. The hash and salt are inputs, `compare` and `verify` are function parameters, and a signed token is its claims and lifetime.
- Clocks: `datetime('now')`, `CURRENT_TIMESTAMP`, `Date.now()` and `new Date()` are integer or text parameters. The thirty-day cutoff is taken as 30 × 24 hours, with no daylight-saving shifts.
- Schema introspection: the `sqlite_master` and `PRAGMA table_info` queries are replaced by what they find (`Tables.organizers`, `organizerColumns`, `usersHaveOrganizerId`). SQLite's type checks on an organizer row are the `accepted` parameter. The organizer's `organizer_id` is taken to be its rowid where the column exists. Without the `organizer_id` or `user_id` column the lookup query fails and gives null.
- The callbacks, Promises and `db.serialize`: each handler is one sequential method. The un-awaited `DELETE` in `updateEvent` is taken to run before the inserts that follow it.
- The query-error branches ("Database error", "Failed to fetch categories") of the read-only queries: the in-memory store cannot fail a read.
- LIKE: `%` and `_` inside the search text are treated as plain characters, and case folding is ASCII only, as in SQLite's default LIKE.
- GROUP_CONCAT order: the two concatenations are taken to list categories in the same order, by id.
- `getEventCategories` without `ORDER BY` returns rows by category id; SQLite leaves that order unspecified.
- `category_ids` that is not an array in `createEvent`/`updateEvent`: the model takes an absent or array value.
- `upvotes || 0`: upvotes are always stored as a number, so a NULL count is not modelled.
- `createEvent` and `createQuestion` compute a filtered text they never use; the model stores the text as sent, as the code does.
- The `users.name` table that `question.models.js` joins against is read-only, and that module's database has no constraints in the model, because its schema is not part of this model.
- JSON parsing and stringifying in the draft service: `localStorage` is a map from keys to draft lists.
- `logout` and `getAllUsers` of the user controller, the route files and `server.js` (Express wiring).
- `event.models.js` and `user.models.js`: they are written against a different schema, and no route uses them.
- `DraftService.DraftStore.SaveDraft`: the thrown error for an anonymous user is the result `None`.
- `UserController.JoinedUser`: only a numeric `user_id` joins. SQLite's affinity conversion of a text id is not modelled.
- `CategoriesController.GetCategories`: the source's `SELECT *` returns each row with its `category_id` and `created_date` columns, while the model returns the same records as `EventController.GetCategories` (`category_id as id`, name, description). Only the rows' set and their order by name are modelled; the column names and `created_date` are not.
- Logging (`console.*`).
- `QuestionModel.QuestionBoard.Create`: `question.models.js` inserts only the question, asker, event and time, so the starting `votes` is the default of a schema (`../libs/database`) that is not part of this model. The model takes it to be 0. With a NULL default, `votes + 1` would stay NULL and `votes > 0` would be false, and `AddVote` and `RemoveVote` would not change the count.
- `UserController.CreateOrganizerForUser`: it inserts the intended organizer row `OrganizerRowFor`, not the row the code binds by position (`AsWrittenOrganizerRow`). The two differ when the table has a column outside the recognised ones before a recognised one; then the code can store `user_id` as NULL, and a later organizer lookup by user finds nothing. `AlignedColumnsBindIntendedRow` gives the tables for which the two agree, and `LeadingIdColumnMisaligns` shows one for which they do not (see "## Findings").
- `UserController.CreateOrganizerForUser` (type checks): with the usual `organizer_id INTEGER PRIMARY KEY` column, SQLite refuses the text that the positional binding puts into `organizer_id` ("datatype mismatch"). On such a schema the visible effect of the misalignment is that no organizer row is created, not a stored misaligned row. The model covers a refused row only through the `accepted` parameter of `InsertOrganizer`.
- `Profanity.ContainsProfanity`: request text fields (`title`, `description`, question text) are taken to be strings or absent. A body carrying a number, an array or an object there cannot arise in the controllers, although the source's guard lets it through as "no profanity". `Profanity.ContainsProfanityValue` models that guard on any value.
- `Profanity.Filter`: for the same reason, the controllers never pass it a non-string. `Profanity.FilterValue` models the source returning such a value unchanged.
- `UserController.StoreRegistration`: it uses the intended organizer row, as `CreateOrganizerForUser` does, so the same gap applies.
- `UserController.Register`: it uses the intended organizer row, as `CreateOrganizerForUser` does, so the same gap applies.
- `EventController.EventViewOf`: each id is paired with its own name, as intended. The code's `split(',')` misaligns the names once a category name contains a comma (`Hydration.CommaInNameMisaligns`). `EventController.ViewCategoriesAsHydrated` proves the two agree when no name contains a comma.

## Findings

| source | as written | input that shows it | evidently intended | confidence | as-written member | corrected member |
|---|---|---|---|---|---|---|
| fsd-eventitude-starter/app/controllers/event.server.controller.js:89-92 | the joined category names are split on `,` and paired with the ids by position | categories 1 "Arts, Crafts" and 2 "Music": event 2's entry gets the name " Crafts" | each id paired with its own name | not executed | Hydration.CommaInNameMisaligns | Hydration.Zip |
| fsd-eventitude-starter/app/controllers/user.server.controller.js:101-113 | the insert names every column of the table, but values are pushed only for recognised columns, in a fixed order | columns (organizer_id, name, email, user_id): the name goes to organizer_id, the email to name, the user id to email, and user_id is NULL; with `organizer_id INTEGER PRIMARY KEY`, SQLite instead refuses the text bound to it, so no organizer row is created | each recognised column gets its own value | not executed | UserController.LeadingIdColumnMisaligns | UserController.OrganizerRowFor |
