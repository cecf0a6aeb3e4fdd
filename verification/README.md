# ChatScript: the knowledge store and what is built on it

This project models the part of the ChatScript engine that remembers and infers, and proves what
its design relies on:

- the **fact store**: triples in an arena, each threaded onto a list for its subject, its verb and
  its object, freed strictly backwards, with special facts as undo records;
- the **dictionary**: a hash table threaded through an arena that grows upward, a string arena that
  grows downward, and two undo logs, all released together to a mark;
- the **planner**: nested backtrack marks that roll both stores back;
- the **inference** on top: concept membership, the scan of a query, the resumable concept iterator
  and the sort of several fact sets at once;
- four smaller pieces: the binary dictionary format, the text form of meanings, the growing lists and
  rings of dictionary entries, and the hand-over of requests between clients and server.

## How it is laid out

Each store is described twice. A datatype (`Net`, `Lex`, `World`) is a snapshot of it, on which the
operations are functions and the laws are lemmas. A class (`FactStore`, `Dictionary`, `Engine`,
`Searcher`, `FactSets`, `ConceptIterator`, `List`, `Irregular`, `Cursor`) has the fields the program
has and methods with the program's loops, each proved equal to the function of its snapshot.

| files | what they hold |
|---|---|
| `Threads`, `ThreadSurgery` | intrusive lists over an arena freed backwards; moving a row between lists |
| `Facts`, `FactLaws`, `FactKill`, `FactClosure`, `FactUndo`, `FactFind`, `FactRevise` | the fact arena, its operations and their laws |
| `FactRuns` | every run of the fact store from the empty arena |
| `FactDefects` | where the code breaks the law, and exactly when |
| `FactRows`, `FactStore` | the arena in place |
| `Words`, `Lexicon`, `LexiconLaws`, `Lookup`, `LexiconEffects`, `LexiconUndo`, `Dictionary` | spelling and hashing, the table, lookup, what changes bit by bit, release |
| `Backtrack`, `Planner`, `PlannerEngine` | marks over both stores; plans, rules and redos |
| `OpEffects`, `PlanEffects`, `PlanOutcomes` | what each operation of a plan does, what a planner call comes to, what a reader then finds |
| `SetTrim` | the fact sets when a mark is restored |
| `Inference`, `Query`, `QueryAnswers` | membership search; the scan of a query, and what it answers |
| `Iterator`, `IteratorMembers`, `SortedSets` | the iterator, and what it answers; the sort |
| `Codec`, `MeaningText`, `GrowingList`, `Rings` | binary entries, meanings as text, meaning and gloss lists, irregular forms |
| `Handshake`, `Framing` | requests between threads, and on the wire |

## Choices

- The record of a dictionary word is split: its three list heads belong to the fact arena (`Net`), its
  spelling, hash, bucket link, properties and flags to the dictionary (`Lex`). An index names the same
  word in both.
- `Net` holds the cleared heads of every entry the dictionary has room for, so that a word stored later
  finds its three lists empty (`BlankedIsSame`).
- A place in the string arena is its offset from the top, as `String2Index` gives it, so a younger
  place has a larger offset. Only the cells the code reads back are kept.
- `MARKED_FACT` and `ITERATOR_FACT` are one bit in the program and one member here.
- The step of the hash, the splitting of words (`BurstWord`, `JoinWords`), the outcome of a rule, the
  tests of a query's match zone and the reply of the chatbot are parameters: the theorems hold for all
  of them.
- `Threaded`, `Lawful` and `Sound` are invariants, not demands on a caller: they hold at the start
  (`FactRuns.EmptyNet`, `Lookup.EmptyIsLawful`, `Backtrack.StartIsSound`) and every operation keeps them.

## Where the code does less than its comments promise

Each of these is stated exactly, as an if-and-only-if or with a witness.

- A fact used as the object of another is threaded through the wrong link (`FactObjectIsThreadedIff`,
  `FactObjectIsUndoneIff`); killing it can then kill unrelated facts, and the exact condition is that a live
  one stands after it on the list of its object (`FactObjectSpreadsDeath`, `FactObjectKillIsCleanIff`). The
  laws of the fact arena are therefore for objects that are words.
- A creation refused for its verb or object leaves a list head in freed space (`RefusedCreateIsCleanIff`).
- `AddToList` drops a fact that is older than every entry of a non-empty list (`RefileKeepsExactIff`,
  `ReviseKeepsThreadedIff`).
- Revising a fact-valued field puts the fact on the list of its own uses, where it never belongs
  (`RewriteFactBreaks`).
- While planning, `CreateFact` makes a twin of a fact it was asked for twice (`CreateFactTwice`).
- Property and flag changes are undone for words below the lock only (`PropertyIsUndoneIff`,
  `AddedPropertyIsUndoneIff`, `FlagIsUndoneIff`); a multiword header byte once changed is never undone
  (`HeaderIsUndoneIff`).
- The length of a word is kept in 16 bits and compared whole: a longer text gets an entry each time it is
  stored, and none is found (`StoredAgainIff`, `PrimaryIsExactIff`).
- The trimming of fact sets when a mark is restored never drops a fact that was freed, which it is there
  for: such a fact is alive when it is freed (`FreedAlive`, `SetsDangleIff`).
- Names that start with `%`, `$`, `~` or `^` are stored by exact spelling but found without regard to
  case (`PrefixedIsExactIff`, `LaterVariantShadows`, `PrefixedIsNotExact`).
- A comment at the saving of a rule's mark says that a failed rule is undone completely; a rule that is
  stopped with nothing to backtrack to is not (`StoppedRuleKeeps`).
- A call of the iterator that enters a nested concept with no record held, and finds nothing, leaves a
  record that `FreeFact` may take for the death record of no fact (`FailedRecordIsFreedIff`).
- A query over facts of its own repeats a fact that fails a test for ever (`RoundsEndIff`, `ScanEndsIff`),
  and facts beyond the size of a set stay marked (`QueryIsClean`). The backtrace asked for with a limit of 1
  is never made: the query is over before it (`FirstFoundEnds`).
- `^sort` uses `@20` for its copy of the key set, though the manual offers `@0` through `@20`: a key set in
  `@20` is not sorted unless it was in order (`SortIsRightIff`, `ScratchKeyFails`), and what `@20` held as a
  chained set is lost (`ScratchIsLost`). A key set listed again is rearranged again (`ListedAgainIff`,
  `ListedFlagsIff`). A fact listed twice in the key set gets a place number for its flags
  (`SortIsRightIff`, `RepeatedKeyFails`) and chained sets lose entries (`PlacesArePermutationIff`); a null fact
  leaves place numbers in the flags (`NumberedIsHarmlessIff`).
- A list loaded from the binary dictionary has no room to spare (`LoadedFitsIff`); the filter for duplicate
  prepositions tests a bit it has masked away (`NeverBothPrepositions`); an entry longer than two bytes can
  count does not read back, and neither does one with a null meaning, which ends the program
  (`EntryBackIff`, `NullMeaningIsBad`); nor does a synset mark that stands alone in a meaning
  (`WrittenIsReadIff`).
- The number of a gloss has 24 bits for the place of its text, and the string arena is larger: a gloss read
  when 16 megabytes are in use gets another text and possibly another index (`EntryBackIff`,
  `DictionaryBackIff`, `GlossAboveIsLost`).

## Model

| member | source | states |
|---|---|---|
| Threads.ListIsExact | ChatScript-6.9/SRC/functionExecute.cpp:6931-6933 | a lawful list holds exactly the rows filed under its key, each once, in strictly decreasing index order |
| Threads.PushKeepsExact | ChatScript-6.9/SRC/factSystem.cpp:976-981 | linking the newest row at the head of its list keeps every list exact |
| Threads.PopKeepsExact | ChatScript-6.9/SRC/factSystem.cpp:264-292 | the newest row is the head of its list, and freeing it (head becomes its next) keeps every list exact |
| Threads.PopUndoesPush | ChatScript-6.9/SRC/factSystem.cpp:281-291 | freeing the row just pushed gives back every link and every head |
| ThreadSurgery.UnlinkChain | ChatScript-6.9/SRC/functionExecute.cpp:6700-6747 | DeleteFromList: the list afterwards is the list before without the fact, and no link outside that list changes |
| ThreadSurgery.AttachChain | ChatScript-6.9/SRC/functionExecute.cpp:6749-6773 | AddToList: the fact is put before the first older entry if the list is empty or has an older entry; otherwise nothing changes at all |
| ThreadSurgery.RefileKeepsExactIff | ChatScript-6.9/SRC/functionExecute.cpp:6749-6773 | moving a row between lists keeps all lists exact if and only if its new list is empty or its oldest entry is older than the row |
| FactLaws.CreateKeepsThreaded | ChatScript-6.9/SRC/factSystem.cpp:932-1045 | a valid creation keeps all six families of lists exact, and the new fact heads the lists of its three fields |
| FactLaws.CreateEffect | ChatScript-6.9/SRC/factSystem.cpp:932-1045 | the step-by-step threading of a valid fact equals one row added that heads three lists; transient while planning |
| FactLaws.FreeKeepsThreaded | ChatScript-6.9/SRC/factSystem.cpp:264-292 | freeing the newest row keeps the law, and a freed fact was the head of its three lists |
| FactLaws.IndexedIsFreeable | ChatScript-6.9/SRC/factSystem.cpp:264-292 | in a lawful arena everything FreeFact dereferences for the newest fact exists |
| FactLaws.FreeUndoesCreate | ChatScript-6.9/SRC/factSystem.cpp:264-292 | freeing a fact just created restores every flag, value, link and head of the arena |
| FactLaws.FreeUndoesDeath | ChatScript-6.9/SRC/factSystem.cpp:266-272 | freeing a death record revives the fact and leaves no other trace |
| FactLaws.FreeChanges | ChatScript-6.9/SRC/factSystem.cpp:264-292 | freeing the newest row changes no field and no flag of another fact, but that the fact whose death it records is alive again |
| FactLaws.SpecialKeepsThreaded | ChatScript-6.9/SRC/factSystem.cpp:303-319 | a special fact is on no list and keeps the law |
| FactLaws.SpecialIs | ChatScript-6.9/SRC/factSystem.cpp:303-319 | a special fact is one row without a subject, dead and transient from the start and marked if it holds a place of an iterator; no other field, flag or link changes |
| FactLaws.NewWordKeepsThreaded | ChatScript-6.9/SRC/dictionarySystem.cpp:1082-1095 | a new dictionary word starts with three empty lists, and the law is kept |
| FactKill.KillFact | ChatScript-6.9/SRC/factSystem.cpp:321-372 | killing ends; facts only die, death records are added, and no field, link or head of a fact there was changes |
| FactKill.KillKeepsThreaded | ChatScript-6.9/SRC/factSystem.cpp:321-372 | killing keeps the law of the lists |
| FactClosure.KillIsClosure | ChatScript-6.9/SRC/factSystem.cpp:321-372 | the facts dead after a kill are those dead before and exactly those that depend on the fact, directly or through others; dead facts still have only dead users |
| FactClosure.KillOfWalkable | ChatScript-6.9/SRC/factSystem.cpp:354-371 | the same in any arena where each list of uses of a live fact runs down, has every user of the fact, and besides them only facts that cannot die |
| FactLaws.FirstLiveIsNext | ChatScript-6.9/SRC/factSystem.cpp:61-150 | the nondead walkers step over dead facts of the list and over nothing else |
| FactUndo.KillIsUndone | ChatScript-6.9/SRC/factSystem.cpp:264-372 | freeing the records a kill left while planning gives back the whole arena, however many deaths it brought |
| FactUndo.CreateIsUndone | ChatScript-6.9/SRC/factSystem.cpp:264-292 | freeing back past a creation gives back the arena |
| FactUndo.FreeToKeepsThreaded | ChatScript-6.9/SRC/factSystem.cpp:374-376 | freeing back any distance keeps the law and every field of the facts that stay |
| FactUndo.FreeToKeepsLocked | ChatScript-6.9/SRC/factSystem.cpp:225-228 | freeing back to a lock leaves of each list exactly the facts at or below the lock, still in decreasing order |
| FactFind.FindFactIsExact | ChatScript-6.9/SRC/factSystem.cpp:391-441 | FindFact answers the newest live fact with the given fields and flags, and none only if there is none, whichever fields are facts, as long as the list it walks is lawful |
| FactFind.CreateFactTwice | ChatScript-6.9/SRC/factSystem.cpp:530-534 | asking for a new fact twice answers a live fact with these fields and flags both times, and the same one if and only if no plan is running or the fact was asked for as transient; else the two are twins |
| FactFind.CreateFactKeepsNoTwins | ChatScript-6.9/SRC/factSystem.cpp:530-534 | outside planning CreateFact never makes two live facts with the same fields and flags, duplicates asked for excepted |
| FactRevise.RewriteKeepsExactIff | ChatScript-6.9/SRC/functionExecute.cpp:6838-6850 | giving a field of a fact another word keeps the lists of that role exact if and only if the new list takes the fact in |
| FactRevise.ReviseKeepsThreadedIff | ChatScript-6.9/SRC/functionExecute.cpp:6838-6850 | a revision of any of the three fields, being words, that goes ahead keeps the law if and only if each new list takes the fact in |
| FactRevise.ReviseIs | ChatScript-6.9/SRC/functionExecute.cpp:6804-6935 | a revision goes ahead if and only if the fact is in use and alive, above the lock and not built in; then each field is the word asked for, unless it named that word already, and no other fact and no flag changes |
| FactRevise.RewriteFactBreaks | ChatScript-6.9/SRC/functionExecute.cpp:6822-6837 | revising a fact-valued field of any fact of a lawful arena, whatever number it is given, always breaks the law, because the fact is put on the list of its own uses |
| FactRevise.RewrittenFactList | ChatScript-6.9/SRC/functionExecute.cpp:6826-6835 | after such a revision the fact heads the list of its own uses if it had none, and is on no list of that role otherwise |
| FactRevise.RewriteKeepsOthers | ChatScript-6.9/SRC/functionExecute.cpp:6873-6885 | moving a fact in one role does not change the lists or the field of another role |
| FactRuns.RunKeepsLists | ChatScript-6.9/SRC/functionExecute.cpp:6931-6933 | in every state reached from the empty arena by adding words, creating, killing and revising facts, recording and freeing back, each list of each word and fact is exactly the facts holding it in that role, newest first |
| FactRuns.RunFreesToLock | ChatScript-6.9/SRC/factSystem.cpp:374-376 | from every reachable state freeing back to any lock ends at the lock and leaves of each list exactly the facts at or below it |
| FactRuns.FreeToReaches | ChatScript-6.9/SRC/factSystem.cpp:225-228 | in a lawful arena freeing back never stops early |
| FactRuns.Run | ChatScript-6.9/SRC/functionExecute.cpp:6931-6933 | a run of allowed steps from a lawful arena ends in a lawful arena |
| FactRuns.KillKeepsRecorded | ChatScript-6.9/SRC/factSystem.cpp:351 | every death record names an older row, after any kill |
| FactDefects.FactObjectIsThreadedIff | ChatScript-6.9/SRC/factSystem.cpp:1025 | a fact whose object is a fact is threaded lawfully if and only if the fact named had no fact-object users and was last on its own object list, because line 1025 follows its next and not its head |
| FactDefects.FactObjectIsUndoneIff | ChatScript-6.9/SRC/factSystem.cpp:289-290 | freeing such a fact restores the arena under the same condition only |
| FactDefects.FactObjectSpreadsDeath | ChatScript-6.9/SRC/factSystem.cpp:366-371 | killing a fact that is the object of another also kills older, unrelated facts that share its object |
| FactDefects.FactObjectKillIsCleanIff | ChatScript-6.9/SRC/factSystem.cpp:354-371 | killing the fact named as object makes dead exactly the facts that depend on it if and only if no live killable fact stands after it on the list of its object |
| FactDefects.RefusedCreateIsCleanIff | ChatScript-6.9/SRC/factSystem.cpp:976-1033 | a creation refused for any field leaves the arena unchanged, and lawful, if and only if that field is the subject or each field linked before it names the new fact itself; otherwise a head of the list of each such field points into freed space |
| FactStores.FactStore.SpecialFact | ChatScript-6.9/SRC/factSystem.cpp:303-319 | adds the record, dead and transient; in a full arena the record is lost and nothing changes |
| FactStores.FactStore.LinkNewest | ChatScript-6.9/SRC/factSystem.cpp:976-1033 | threads the newest fact by one field as the code does, or reports that the field names no fact and changes nothing |
| FactStores.FactStore.CreateFastFact | ChatScript-6.9/SRC/factSystem.cpp:932-1045 | in place, equals the creation the laws are about; 0 and no change when the arena is full |
| FactStores.FactStore.CreateFact | ChatScript-6.9/SRC/factSystem.cpp:443-542 | in place, finds before it creates; in a full arena it only finds |
| FactStores.FactStore.SkipDead | ChatScript-6.9/SRC/factSystem.cpp:91-99 | the walker loop ends at the first live fact at or after the start |
| FactStores.FactStore.NondeadHead | ChatScript-6.9/SRC/factSystem.cpp:91-150 | the first live fact of a list |
| FactStores.FactStore.NondeadNext | ChatScript-6.9/SRC/factSystem.cpp:61-89 | the next live fact of a list, older than the one given |
| FactStores.FactStore.FindFact | ChatScript-6.9/SRC/factSystem.cpp:391-441 | the walk, with its comparison for each kind of field, equals the search FindFactIsExact is about |
| FactStores.FactStore.KillFact | ChatScript-6.9/SRC/factSystem.cpp:321-372 | the recursive kill in place, with a record for each death while planning, equals the kill KillIsClosure is about |
| FactStores.FactStore.KillListOf | ChatScript-6.9/SRC/factSystem.cpp:354-371 | one of the three loops over users, which goes on safely while the list loses live facts |
| FactStores.FactStore.FreeFact | ChatScript-6.9/SRC/factSystem.cpp:264-292 | frees the newest fact in place: revives, steps over or unthreads as its kind says |
| FactStores.FactStore.FreeBackTo | ChatScript-6.9/SRC/factSystem.cpp:374-376 | the loop that frees down to a lock |
| FactStores.FactStore.DeleteFromList | ChatScript-6.9/SRC/functionExecute.cpp:6700-6747 | the loop in place equals the list surgery UnlinkChain is about |
| FactStores.FactStore.AddToList | ChatScript-6.9/SRC/functionExecute.cpp:6749-6773 | the loop in place equals the list surgery AttachChain is about |
| FactStores.FactStore.ReviseField | ChatScript-6.9/SRC/functionExecute.cpp:6838-6850 | moves one field of a fact from the list of its word to that of another |
| FactStores.FactStore.ReviseFactField | ChatScript-6.9/SRC/functionExecute.cpp:6822-6837 | moves a fact-valued field in place as the code does, from the list of the fact it named to the list of uses of the revised fact |
| FactStores.FactStore.ReviseFact | ChatScript-6.9/SRC/functionExecute.cpp:6804-6935 | refuses null, locked, built-in and dead facts unchanged; otherwise rewrites word-valued subject, verb and object in turn |
| Words.CaseFolds | ChatScript-6.9/SRC/os.cpp:991-1009 | spellings that differ in case only have one hash |
| Words.HashSteps | ChatScript-6.9/SRC/os.cpp:991-1009 | the hash takes one character after another, in lower case and a blank as an underscore |
| Words.SameLettersFile | ChatScript-6.9/SRC/dictionarySystem.cpp:1030-1036 | case variants agree on the hash and on being filed in lower case always |
| LexiconLaws.FindSpellingIsExact | ChatScript-6.9/SRC/dictionarySystem.cpp:1142-1152 | the search of StoreWord answers the entry of a spelling, and 0 only if there is none or its length does not fit 16 bits |
| LexiconLaws.StorePlainKeepsLawful | ChatScript-6.9/SRC/dictionarySystem.cpp:1154-1172 | storing keeps every bucket list exact and every entry in its bucket, and changes the spelling of no entry; the answer holds the spelling |
| LexiconLaws.StoreWordKeepsLawful | ChatScript-6.9/SRC/dictionarySystem.cpp:1111-1173 | StoreWord never gives a spelling whose length fits 16 bits two entries, answers the entry of the spelling it stores the text under (as it is, or split and joined), and keeps every entry there was |
| LexiconEffects.StoreWordBits | ChatScript-6.9/SRC/dictionarySystem.cpp:1111-1173 | after StoreWord the entry it answers has every property it had and every one asked for except AS_IS, and no others; of an empty text none is asked for; every other entry has the properties and flags it had |
| LexiconEffects.StoredAsIs | ChatScript-6.9/SRC/dictionarySystem.cpp:1111-1136 | a text is stored as it is if it starts with a quote, an underscore or the mark of a variable, a concept or a function, or is asked for as it is or is punctuation; else with its words joined |
| LexiconEffects.NewWordTakesRoom | ChatScript-6.9/SRC/dictionarySystem.cpp:780-830 | a new word takes room in the string arena for its characters, a zero and, once the dictionary is locked, five bytes, in whole words; a word that is there takes none |
| Lexicon.AllocateIs | ChatScript-6.9/SRC/dictionarySystem.cpp:780-830 | what is allocated ends at the least multiple of the unit that leaves room for the bytes in whole words |
| LexiconLaws.StoredAgainIff | ChatScript-6.9/SRC/dictionarySystem.cpp:1142-1168 | storing a text once more answers the same entry if and only if the length of its spelling fits the 16 bits kept for it |
| LexiconLaws.AddPropertyKeepsLawful | ChatScript-6.9/SRC/dictionarySystem.cpp:940-957 | adding a property, header word included, keeps the law of the table |
| LexiconEffects.AddPropertyBits | ChatScript-6.9/SRC/dictionarySystem.cpp:940-957 | after AddProperty a bit of the properties is set if and only if it was set or is in the flag; the flags of the word, and every other entry, stay as they were |
| LexiconEffects.AddSystemFlagBits | ChatScript-6.9/SRC/dictionarySystem.cpp:902-910 | after AddSystemFlag a flag is set if and only if it was set or is asked for, where NOCONCEPTLIST is asked for in vain of a word that is no concept; nothing else changes |
| LexiconEffects.RemovePropertyBits | ChatScript-6.9/SRC/dictionarySystem.cpp:959-966 | after RemoveProperty a property is left if and only if it was there and is not to go; nothing else changes |
| LexiconEffects.RemoveSystemFlagBits | ChatScript-6.9/SRC/dictionarySystem.cpp:922-929 | the same for RemoveSystemFlag and the flags |
| LexiconEffects.AddPropertyHeaders | ChatScript-6.9/SRC/dictionarySystem.cpp:940-957 | the first time a word gets a part of speech, and is no name of a concept, a function or a variable, its first word heads the number of its words if that is more than before; at no other time does a header change |
| LexiconLaws.FlagsKeepLawful | ChatScript-6.9/SRC/dictionarySystem.cpp:902-966 | the other property and flag changes keep the law of the table |
| LexiconLaws.DropNewestKeepsLawful | ChatScript-6.9/SRC/dictionarySystem.cpp:1231-1253 | the head check of DeleteDictionaryEntry never fails on the newest entry of a lawful table, and deleting it keeps the law |
| Lookup.PrimaryIsExactIff | ChatScript-6.9/SRC/dictionarySystem.cpp:1043-1065 | a lookup in its own case finds the exact spelling that is in the table, unless the name is always filed in lower case, if and only if its length fits 16 bits |
| Lookup.PrimaryFindsVariant | ChatScript-6.9/SRC/dictionarySystem.cpp:1043-1065 | what such a lookup finds is a case variant |
| Lookup.StandardFindsAny | ChatScript-6.9/SRC/dictionarySystem.cpp:1017-1080 | the usual lookup finds a case variant, and nothing if and only if none with a length that fits 16 bits is stored |
| Lookup.LowerIsLower | ChatScript-6.9/SRC/dictionarySystem.cpp:1030-1063 | a lower-case lookup finds the lower-case form if stored, and nothing with upper case |
| Lookup.PrefixedIsExactIff | ChatScript-6.9/SRC/dictionarySystem.cpp:1031-1035 | for names starting with %, $, ~ or ^ the exact spelling is found if and only if it is met before every other case variant |
| Lookup.LaterVariantShadows | ChatScript-6.9/SRC/dictionarySystem.cpp:1031-1051 | two such names that differ in case get an entry each, and a lookup of the first then finds the second |
| Lookup.PrefixedIsNotExact | ChatScript-6.9/SRC/dictionarySystem.cpp:1031-1051 | a concrete table with $A and $a in which a lookup of $A finds $a |
| LexiconUndo.ReleaseRestores | ChatScript-6.9/SRC/dictionarySystem.cpp:422-453 | DictionaryRelease to a mark restores the entries under their spellings, every bucket list in order, the properties and flags of locked words, both logs and the string arena |
| LexiconUndo.PopPropertiesRewinds | ChatScript-6.9/SRC/dictionarySystem.cpp:425-437 | the first loop takes back exactly the records made since the mark, newest first, and stops there |
| LexiconUndo.PopFlagsRewinds | ChatScript-6.9/SRC/dictionarySystem.cpp:438-450 | the second loop does the same for flags |
| LexiconUndo.DropToKeepsLawful | ChatScript-6.9/SRC/dictionarySystem.cpp:451 | deleting back to a mark keeps the law and changes of the entries that stay only the links of bucket entries |
| LexiconUndo.AddPropertySince | ChatScript-6.9/SRC/dictionarySystem.cpp:940-957 | adding a property, with the header word it may store, can be undone to any earlier mark |
| LexiconUndo.FlagsSince | ChatScript-6.9/SRC/dictionarySystem.cpp:902-966 | flag changes and property removals can be undone to any earlier mark |
| LexiconUndo.StoreWordSince | ChatScript-6.9/SRC/dictionarySystem.cpp:1111-1173 | storing a word can be undone to any earlier mark |
| LexiconUndo.PropertyIsUndoneIff | ChatScript-6.9/SRC/dictionarySystem.cpp:959-966 | removed properties come back on release if and only if the word is below the lock or had none of them |
| LexiconUndo.AddedPropertyIsUndoneIff | ChatScript-6.9/SRC/dictionarySystem.cpp:940-957 | added properties are taken back on release if and only if the word is below the lock or had all of them |
| LexiconUndo.FlagIsUndoneIff | ChatScript-6.9/SRC/dictionarySystem.cpp:902-929 | added and removed system flags are undone on release under the same conditions, NOCONCEPTLIST on a word that is no concept aside |
| LexiconUndo.HeaderIsUndoneIff | ChatScript-6.9/SRC/dictionarySystem.cpp:940-957 | releasing the dictionary to the moment before AddProperty gives every entry its multiword header back if and only if the call changed no header of an entry there was, where a header takes the low byte of the number of words |
| LexiconUndo.ReleaseKeepsHeaders | ChatScript-6.9/SRC/dictionarySystem.cpp:422-453 | releasing the dictionary changes no header byte |
| Dictionaries.Dictionary.FindSpelling | ChatScript-6.9/SRC/dictionarySystem.cpp:1142-1152 | the bucket walk equals the search FindSpellingIsExact is about |
| Dictionaries.Dictionary.Scan | ChatScript-6.9/SRC/dictionarySystem.cpp:1043-1077 | the walk of one bucket, remembering an almost match, equals the pick the lookup lemmas are about |
| Dictionaries.Dictionary.FindWord | ChatScript-6.9/SRC/dictionarySystem.cpp:1017-1080 | the whole lookup of a whole spelling, for every combination of case bits |
| Dictionaries.Dictionary.NewEntry | ChatScript-6.9/SRC/dictionarySystem.cpp:1154-1170 | a new entry heads its bucket, or fills the free bucket entry while the base system loads |
| Dictionaries.Dictionary.AddProperty | ChatScript-6.9/SRC/dictionarySystem.cpp:940-957 | in place, equals the change AddPropertyBits and AddPropertyHeaders describe bit by bit and AddPropertySince shows can be undone |
| Dictionaries.Dictionary.AddSystemFlag | ChatScript-6.9/SRC/dictionarySystem.cpp:902-910 | in place, equals the change AddSystemFlagBits describes bit by bit and FlagsSince shows can be undone: the old flags of a locked word are logged |
| Dictionaries.Dictionary.RemoveSystemFlag | ChatScript-6.9/SRC/dictionarySystem.cpp:922-929 | in place, equals the change RemoveSystemFlagBits describes and FlagsSince shows can be undone; nothing is logged when no bit was set |
| Dictionaries.Dictionary.RemoveProperty | ChatScript-6.9/SRC/dictionarySystem.cpp:959-966 | in place, equals the change RemovePropertyBits describes and PropertyIsUndoneIff is about |
| Dictionaries.Dictionary.StoreWord | ChatScript-6.9/SRC/dictionarySystem.cpp:1111-1173 | splits and joins a text that is not taken as it is, stores or finds it in place, and gives it the properties StoreWordBits describes; the table stays lawful and the answer is the entry of what was stored |
| Dictionaries.Dictionary.DeleteNewest | ChatScript-6.9/SRC/dictionarySystem.cpp:1231-1253 | unlinks the newest entry; in a lawful table its bucket always points to it |
| Dictionaries.Dictionary.Release | ChatScript-6.9/SRC/dictionarySystem.cpp:422-453 | in place, gives back the earlier dictionary, whatever was done since by undoable operations |
| Backtrack.StartIsSound | ChatScript-6.9/SRC/factSystem.cpp:230-248 | with no fact and no word yet, both stores are sound |
| Backtrack.PerformGrew | ChatScript-6.9/SRC/functionExecute.cpp:222-224 | each operation between a mark and its restoration keeps both stores sound and can be undone |
| Backtrack.MarkSurvives | ChatScript-6.9/SRC/functionExecute.cpp:195-206 | the mark is still readable after any undoable operations, with the counts it was saved with |
| Backtrack.SaveIsSound | ChatScript-6.9/SRC/functionExecute.cpp:195-206 | saving a mark changes nothing but the string arena |
| Backtrack.RefreshRestores | ChatScript-6.9/SRC/functionExecute.cpp:242-265 | RefreshMark gives back facts, dictionary and string arena exactly as when the mark was saved, and the mark stays |
| Backtrack.RestoreRestores | ChatScript-6.9/SRC/functionExecute.cpp:217-240 | RestoreMark gives back facts and dictionary and the mark before |
| Backtrack.FlushKeeps | ChatScript-6.9/SRC/functionExecute.cpp:208-215 | FlushMark keeps every fact, entry and log and goes back to the mark before; everything can still be undone to an earlier mark |
| Backtrack.FlushGivesBack | ChatScript-6.9/SRC/functionExecute.cpp:208-215 | flushing gives the space of a mark back, up to its alignment, if nothing was allocated since, and no space otherwise |
| Backtrack.BlankedIsSame | ChatScript-6.9/SRC/dictionarySystem.cpp:1082-1095 | no list starts at a word that is not in use, so clearing a new entry loses nothing |
| Backtrack.RunIsRestored | ChatScript-6.9/SRC/functionExecute.cpp:195-240 | for any run of fact creations, kills, word stores, property and flag changes after SaveBacktrack, RestoreMark gives back every dead flag, link and head, every bucket, the properties and flags of locked words, the logs and the mark before |
| OpEffects.CreationAdds | ChatScript-6.9/SRC/factSystem.cpp:932-1045 | while planning a creation whose fields all name something adds exactly one row, with its own fields and flags, transient, at the head of its three lists; any other creation changes nothing |
| OpEffects.KillingKills | ChatScript-6.9/SRC/factSystem.cpp:321-372 | a kill of a fact alive that is not built in makes dead exactly the facts that use it, directly or not, and adds records; any other changes nothing; no field and no word changes |
| OpEffects.StoringStores | ChatScript-6.9/SRC/dictionarySystem.cpp:1111-1173 | while there is room a text stored is a word afterwards, with the properties it had and those asked for; no other word and no fact changes |
| OpEffects.AddingProperty | ChatScript-6.9/SRC/dictionarySystem.cpp:940-957 | a property operation sets the bits asked for on that word and changes no other, and no fact |
| OpEffects.RemovingProperty | ChatScript-6.9/SRC/dictionarySystem.cpp:959-966 | a removal clears them |
| OpEffects.FlagsChange | ChatScript-6.9/SRC/dictionarySystem.cpp:902-929 | the same for flags added and removed |
| SetTrim.TrimSets | ChatScript-6.9/SRC/functionExecute.cpp:227-236 | the loops over the fact sets drop the dead facts at the end of each, and leave a set alone whose facts are all dead |
| SetTrim.FreedAlive | ChatScript-6.9/SRC/factSystem.cpp:264-272 | a fact made since a mark is alive by the time it is freed, because its death record is freed first; so the flags left in its row do not say dead |
| SetTrim.TrimKeepsFreed | ChatScript-6.9/SRC/functionExecute.cpp:217-240 | after any run of creations and kills while planning, restored to its mark, the trimming of a set drops only facts older than the mark and dead, and never a freed fact |
| SetTrim.SetsDangleIff | ChatScript-6.9/SRC/functionExecute.cpp:227-236 | so a set names freed facts afterwards if and only if it named facts made since the mark |
| Planner.PlanCodeIsAllOrNothing | ChatScript-6.9/SRC/functionExecute.cpp:298-440 | a plan that fails leaves facts and dictionary as they were; one that ends its topic keeps all that was done in the plan that ended it, which PlanCodePerforms spells out; the marks of the caller are back and the caller can still undo everything |
| PlanEffects.PlanCodePerforms | ChatScript-6.9/SRC/functionExecute.cpp:298-440 | a call ends its topic if and only if a plan is achieved before one without a topic; and facts and dictionary then look as if the operations kept, and no others, had been performed one after another from where the call started |
| PlanEffects.StepsCompose | ChatScript-6.9/SRC/functionExecute.cpp:375-393 | what comes later in a rule starts from what came before it, planner calls inside it included |
| PlanEffects.StepsAreRun | ChatScript-6.9/SRC/functionExecute.cpp:375-393 | the operations of a rule run as a plain run of them does |
| PlanEffects.PlansEnd | ChatScript-6.9/SRC/functionExecute.cpp:337-423 | the plans end if and only if one of them can be run and has a rule whose final attempt ends the topic, with none without a topic before it |
| PlanOutcomes.KeptInPlans | ChatScript-6.9/SRC/functionExecute.cpp:337-423 | kept are the operations of the first plan achieved; of a call that fails, none |
| PlanOutcomes.KeptInRules | ChatScript-6.9/SRC/functionExecute.cpp:370-402 | of a plan, those of the rules up to the first that ends the topic |
| PlanOutcomes.KeptInAttempts | ChatScript-6.9/SRC/functionExecute.cpp:375-393 | of a rule, those of its final attempt: the first not stopped, or the last |
| PlanOutcomes.KeptInSteps | ChatScript-6.9/SRC/functionExecute.cpp:375-393 | of an attempt, its own and those kept of the planner calls in it |
| PlanOutcomes.EndedPlanCreates | ChatScript-6.9/SRC/functionExecute.cpp:410-414 | after a call that ends, every creation in the final attempt at a rule of the plan that ended, up to the rule that ended it, is a row with its own fields and flags, alive unless an operation kept kills |
| PlanOutcomes.PlanMakesAsked | ChatScript-6.9/SRC/functionExecute.cpp:298-440 | the facts made by a call are exactly those the operations kept ask for, in their order; a call that fails makes none |
| PlanOutcomes.EndedPlanStores | ChatScript-6.9/SRC/functionExecute.cpp:410-414 | after a call that ends, every text stored by an operation kept is a word |
| PlanOutcomes.CreationIsThere | ChatScript-6.9/SRC/factSystem.cpp:932-1045 | in a run seen from outside, each creation that names something from the start on is a row in the end |
| PlanOutcomes.MadeAreAsked | ChatScript-6.9/SRC/factSystem.cpp:932-1045 | and the rows made are exactly those asked for, in their order |
| Planner.FailedPlansLeaveNothing | ChatScript-6.9/SRC/functionExecute.cpp:415-421 | alternative plans none of which ends its topic leave no effect, at any nesting |
| Planner.PlansStartAlike | ChatScript-6.9/SRC/functionExecute.cpp:338-354 | each alternative plan starts from the same facts and dictionary as the first |
| Planner.AttemptsStartAlike | ChatScript-6.9/SRC/functionExecute.cpp:381-393 | each redo of a rule starts from exactly the world in which its mark was saved |
| Planner.EndedPlansKeep | ChatScript-6.9/SRC/functionExecute.cpp:410-414 | nothing of the plan that ended its topic is lost when its marks are dropped |
| Planner.EndedRulesKeep | ChatScript-6.9/SRC/functionExecute.cpp:376-402 | nothing is lost between the rule that ended the topic and the end of the plan |
| Planner.StoppedRuleKeeps | ChatScript-6.9/SRC/functionExecute.cpp:373-394 | a rule that is stopped with nothing to backtrack to keeps its effects, although its mark was made to undo it |
| PlannerEngine.Engine.SaveBacktrack | ChatScript-6.9/SRC/functionExecute.cpp:195-206 | writes a mark and makes it the backtrack point |
| PlannerEngine.Engine.FlushMark | ChatScript-6.9/SRC/functionExecute.cpp:208-215 | drops the mark, and its space if nothing was allocated since |
| PlannerEngine.Engine.RefreshMark | ChatScript-6.9/SRC/functionExecute.cpp:242-265 | undoes to the mark and keeps it, so it can be undone to again |
| PlannerEngine.Engine.RestoreMark | ChatScript-6.9/SRC/functionExecute.cpp:217-240 | undoes to the mark and drops it |
| PlannerEngine.Engine.RunRule | ChatScript-6.9/SRC/functionExecute.cpp:375-393 | a rule with its redo loop, ended by the first attempt that is not stopped or has nothing to backtrack to |
| PlannerEngine.Engine.RunRules | ChatScript-6.9/SRC/functionExecute.cpp:370-402 | the loop over rules, with the mark of the last rule dropped after a break and not dropped twice |
| PlannerEngine.Engine.RunPlans | ChatScript-6.9/SRC/functionExecute.cpp:337-423 | the loop over plans, each under its own mark |
| PlannerEngine.Engine.PlanCode | ChatScript-6.9/SRC/functionExecute.cpp:298-440 | the whole call with its loops and breaks equals the planner PlanCodePerforms is about, and the marks of the caller are put back |
| Iterator.IteratorFlattens | ChatScript-6.9/SRC/functionExecute.cpp:7473-7553 | successive calls answer exactly the depth-first flattening of the concept in list order and then fail; every call ends; PlainAnswers, NestedAnswers and RecursiveAnswers say by the fields of the facts what that is |
| IteratorMembers.PlainAnswers | ChatScript-6.9/SRC/functionExecute.cpp:7521-7542 | an iteration that does not recurse answers the subjects of exactly the live facts with the verb that have the word as object, or the objects of those that have it as subject, newest first |
| IteratorMembers.NestedAnswers | ChatScript-6.9/SRC/functionExecute.cpp:7508-7530 | one that recurses answers the same, with each concept among them replaced by all that an iteration over that concept answers |
| IteratorMembers.RecursiveAnswers | ChatScript-6.9/SRC/functionExecute.cpp:7508-7530 | it answers a meaning if and only if a chain of live facts with the verb leads down to it through nothing but concepts, and never a concept |
| Iterator.CallAnswers | ChatScript-6.9/SRC/functionExecute.cpp:7473-7553 | a call answers the first meaning still to come and leaves the others, or fails when none is to come, wherever the iteration stands |
| Iterator.HuntAnswers | ChatScript-6.9/SRC/functionExecute.cpp:7507-7541 | the loop over levels ends and finds the first meaning left, keeping its stack in the records |
| Iterator.PushKeepsRest | ChatScript-6.9/SRC/functionExecute.cpp:7516-7522 | going down into a nested concept leaves what is to be found as it is, and brings the end nearer |
| Iterator.FailedRecordIsFreedIff | ChatScript-6.9/SRC/functionExecute.cpp:7517-7540 | any call that holds no record and fails: it changes nothing if it met no nested concept, and otherwise leaves a record without a verb, its object the first fact of the first nested concept met, which FreeFact can free if and only if there is such a fact |
| Iterator.HeldRecordIsFreed | ChatScript-6.9/SRC/functionExecute.cpp:7529-7541 | a call that fails with a record held leaves the last answer in it, and FreeFact can free it |
| Iterator.ConceptIterator.HuntOn | ChatScript-6.9/SRC/functionExecute.cpp:7507-7541 | the loop with its return to higher levels, in place |
| Iterator.ConceptIterator.Next | ChatScript-6.9/SRC/functionExecute.cpp:7473-7553 | one call in place: the next answer, and the place kept for the call after |
| SortedSets.BubbleSorts | ChatScript-6.9/SRC/factSystem.cpp:1375-1398 | the shrinking bubble sort leaves the facts it was given, in order |
| SortedSets.AscendingNumbers | ChatScript-6.9/SRC/factSystem.cpp:1375-1398 | facts whose keys are numbers end up in ascending order of them |
| SortedSets.AscendingWords | ChatScript-6.9/SRC/factSystem.cpp:1375-1398 | facts whose keys are words end up so that each is a beginning of the next or has a lower character where they first differ |
| SortedSets.PassSettles | ChatScript-6.9/SRC/factSystem.cpp:1377-1397 | one pass puts the highest remaining fact in place; a pass without a swap means order |
| SortedSets.SortFacts | ChatScript-6.9/SRC/factSystem.cpp:1352-1399 | the sort in place, its loaded values moved along, equals the sort BubbleSorts is about |
| SortedSets.FactSets.SortCode | ChatScript-6.9/SRC/functionExecute.cpp:7658-7737 | for any key set and any chained sets of @0 to @20, listed any number of times: refused unchanged for more than 65535 facts or unequal counts, given up half-way at a null key fact, and otherwise the rearrangement the other rows are about |
| SortedSets.FactSets.Number | ChatScript-6.9/SRC/functionExecute.cpp:7701-7711 | puts the flags aside, numbers the facts in their flags and copies them to @20, until a null fact |
| SortedSets.FactSets.ArrangeSet | ChatScript-6.9/SRC/functionExecute.cpp:7717-7726 | copies a listed set and puts it back in the order that the flags of the facts of @20 give, which is read as it goes where the set is @20 |
| SortedSets.FactSets.GiveFlagsBack | ChatScript-6.9/SRC/functionExecute.cpp:7729-7734 | gives each fact of the key set what was put aside for its place, in turn |
| SortedSets.SortIsRightIff | ChatScript-6.9/SRC/functionExecute.cpp:7658-7737 | the key set, listed once, is sorted if and only if it is not @20 or was in order already; it is sorted and every flag of every fact is what it was if and only if, besides, each fact listed again in it happens to have its place before as flags |
| SortedSets.OrderedKeyStays | ChatScript-6.9/SRC/functionExecute.cpp:7713-7734 | a key set in order stays as it is whatever sets are listed and however often, and then all flags come back under the same condition |
| SortedSets.ListedAgainIff | ChatScript-6.9/SRC/functionExecute.cpp:7713-7728 | a key set listed once again, beside any other chained sets but @20, ends up sorted if and only if it was in order before |
| SortedSets.ListedTimes | ChatScript-6.9/SRC/functionExecute.cpp:7713-7728 | a key set listed again any number of times, beside any other chained sets but @20, ends up sorted and then rearranged once more for each time |
| SortedSets.ListedFlagsIff | ChatScript-6.9/SRC/functionExecute.cpp:7729-7734 | each of its facts, being distinct, then gets the flags of the fact that the sort put where it ends up; all flags come back if and only if these are the same |
| SortedSets.SortsTogether | ChatScript-6.9/SRC/functionExecute.cpp:7713-7728 | where no set is listed twice and none is @20, one rearrangement is applied to every listed set and no other of @0 to @19 changes; it is a permutation if and only if no fact is listed twice in the key set |
| SortedSets.ScratchIsLost | ChatScript-6.9/SRC/functionExecute.cpp:7700-7726 | whatever @20 held, after the sort it holds facts of the key set only, even if it is one of the chained sets |
| SortedSets.ScratchKeyFails | ChatScript-6.9/SRC/functionExecute.cpp:7700-7734 | a witness: two facts in @20 that are out of order stay so and get the flags of each other |
| SortedSets.RepeatedKeyFails | ChatScript-6.9/SRC/functionExecute.cpp:7729-7734 | a witness: the flags of a fact listed twice in a key set of two come back if and only if they were 1 |
| SortedSets.NumberedIsHarmlessIff | ChatScript-6.9/SRC/functionExecute.cpp:7710 | giving up at a null fact leaves the flags of distinct facts as they were if and only if each replaced flag word already was the place of its fact |
| SortedSets.PlacesArePermutationIff | ChatScript-6.9/SRC/functionExecute.cpp:7701-7728 | the places read back from the flags are a permutation if and only if no fact of the key set is listed twice |
| Inference.SetContainsIsReachability | ChatScript-6.9/SRC/infer.cpp:82-169 | a true answer means a path of live member and is facts; over generic meanings, with no concept excluding a word reached from the meaning and fewer than 20000 live facts a word, true if and only if there is such a path, cycles included |
| Inference.ContainedIsClean | ChatScript-6.9/SRC/infer.cpp:103-147 | a true answer comes with a path on which no member fact leads into a flagged concept with a live exclude fact that names a word of the path up to there |
| Inference.ExcludedIsFalse | ChatScript-6.9/SRC/infer.cpp:103-121 | where the first member fact of every path enters a concept that excludes the word of the meaning itself, the answer is false |
| Inference.BlockedIff | ChatScript-6.9/SRC/infer.cpp:107-121 | a concept is blocked if and only if it is flagged and has a live exclude fact that names a word marked |
| Inference.SearchIsSound | ChatScript-6.9/SRC/infer.cpp:82-162 | a true answer of any inner search comes with the path itself, on which no member fact leads into a concept that excludes a word marked before it on the way |
| Inference.SearchIsComplete | ChatScript-6.9/SRC/infer.cpp:82-162 | a false answer leaves marks closed under the links that miss the concept, and on words reached alone |
| Inference.Search | ChatScript-6.9/SRC/infer.cpp:82-162 | the search ends, marking more words and never fewer |
| Inference.NextIsNewest | ChatScript-6.9/SRC/factSystem.cpp:61-89 | the next live fact is the newest live fact of that word that is older |
| Inference.Searcher.SetContains1 | ChatScript-6.9/SRC/infer.cpp:82-162 | the recursive search over inferMark, with its counter and exclusions, equals the search the theorem is about |
| Inference.Searcher.FollowsNow | ChatScript-6.9/SRC/infer.cpp:103-147 | which facts lead up, with the walk over exclusions that BlockedIff describes |
| Inference.Searcher.Contains | ChatScript-6.9/SRC/infer.cpp:164-169 | after NextInferMark no word counts as marked, so the answer is that of the fresh search SetContainsIsReachability, ContainedIsClean and ExcludedIsFalse are about |
| Query.RoundsEndIff | ChatScript-6.9/SRC/infer.cpp:1171-1371 | the inner loop ends if and only if the item is not a fact of its own (offset 3) that fails a test; over lists it always ends |
| Query.ScanEndsIff | ChatScript-6.9/SRC/infer.cpp:1145-1372 | the scan ends if and only if no item it gets to, queued before or during it, is stuck |
| Query.ListQueryEnds | ChatScript-6.9/SRC/infer.cpp:1150-1372 | a query over lists of words or facts always ends, whatever it queues |
| Query.FirstFoundEnds | ChatScript-6.9/SRC/infer.cpp:1276-1305 | with a limit of 1 the query is over at the first fact found, so the backtrace asked for after it is never made |
| Query.QueryIsClean | ChatScript-6.9/SRC/infer.cpp:1145-1376 | a query started with no fact marked ends with distinct live answers; no fact stays marked if and only if the facts found fit in a set, which a limit up to MAX_FIND guarantees |
| QueryAnswers.AnswersAreFound | ChatScript-6.9/SRC/infer.cpp:1145-1372 | every answer is a live fact, of the kind asked for and not ignored, that matches under marks of the time and is on the list of a queued item, or is beyond such a fact by the ricochet |
| QueryAnswers.HitsAreAnswers | ChatScript-6.9/SRC/infer.cpp:1145-1372 | where matching does not depend on the marks, a query that ends below its limit has as answers every such match of every item queued by the end, links it followed aside, or with a ricochet all that is beyond them; and has queued the other side of every fact there that propagates |
| QueryAnswers.QueueIsTraced | ChatScript-6.9/SRC/infer.cpp:1145-1372 | nothing is queued but what was given, equivalents of what was queued, and the other sides of facts that propagate or are links up the dictionary |
| QueryAnswers.PassesIffWanted | ChatScript-6.9/SRC/infer.cpp:1205-1231 | the tests before a match: alive, above or below the lock as asked, about the very meaning if that is not generic, its other side not to be ignored, not about a topic if that is not wanted |
| QueryAnswers.RiccochetFinds | ChatScript-6.9/SRC/infer.cpp:441-491 | a ricochet finds only live facts of the kind asked for that are named by the field or have its word on the side asked for |
| QueryAnswers.RiccochetTakes | ChatScript-6.9/SRC/infer.cpp:441-491 | and all of those it accepts, unless it stops at the limit |
| QueryAnswers.TakenWithEquivalents | ChatScript-6.9/SRC/infer.cpp:260-325 | a word that is taken goes on the queue next, with the objects, no concepts, of its live member facts and, if it is generic, its synsets, less than 50 steps on |
| Query.RiccochetIsGood | ChatScript-6.9/SRC/infer.cpp:441-491 | a ricochet adds only live facts not yet found and stops at the limit |
| Query.AddFactIsGood | ChatScript-6.9/SRC/factSystem.cpp:294-301 | adding a found fact keeps the set distinct, and a full set overwrites its last |
| Query.AddWord | ChatScript-6.9/SRC/infer.cpp:260-325 | queueing a word ends and only extends the queue, up to MAX_QUEUE |
| Query.Run | ChatScript-6.9/SRC/infer.cpp:1145-1376 | both loops and the clearing loop, as they run, for every queue on which the program comes back, give the answers AnswersAreFound and HitsAreAnswers are about |
| Codec.NumberBack | ChatScript-6.9/SRC/dictionarySystem.cpp:1642-1740 | every width reads back what was written |
| Codec.NumberLayout | ChatScript-6.9/SRC/dictionarySystem.cpp:1449-1531 | a number is written as its digits to the base 256, the low one first |
| Codec.StringBack | ChatScript-6.9/SRC/dictionarySystem.cpp:1759-1777 | a string, absent or not, reads back |
| Codec.StringLayout | ChatScript-6.9/SRC/dictionarySystem.cpp:1533-1547 | a string is written as its length, low byte first, its characters and a zero; none, or an empty one, as two zeros |
| Codec.PutIs | ChatScript-6.9/SRC/dictionarySystem.cpp:780-830 | the room a text and a list take in the arena while an entry is read |
| Codec.BodyBackIff | ChatScript-6.9/SRC/dictionarySystem.cpp:1788-1855 | the body of an entry reads back with every optional field, gloss texts and free entries included, if and only if it has no null meaning and the text of each gloss is put below 2^24 in the string arena; with a null meaning the reader exits |
| Codec.BodyRead | ChatScript-6.9/SRC/dictionarySystem.cpp:1788-1855 | an entry without a null meaning is in memory as it was written, with the number of each gloss packed from its index and the place of its text |
| Codec.GlossNumberIff | ChatScript-6.9/SRC/dictionarySystem.cpp:1847 | the number of a gloss names its index and the place of its text if and only if the place is below 2^24; else the index is joined with the high bits of the place |
| Codec.GlossShownIff | ChatScript-6.9/SRC/dictionarySystem.cpp:1945-1960 | a gloss with a text is seen as it was put if and only if its place is below 2^24, or its index has the high bits of the place already and the same text happens to be found at the low ones |
| Codec.GlossAboveIsLost | ChatScript-6.9/SRC/dictionarySystem.cpp:1837-1848 | a witness: the second gloss of a word, read when 2^24 bytes of the arena are in use, becomes its third |
| Codec.EntryBackIff | ChatScript-6.9/SRC/dictionarySystem.cpp:1779-1856 | an entry on the stream reads back, each gloss text at the place where it was put, and is not taken for the end mark, if and only if its length is below 65536, it has no null meaning and the texts of its glosses are put below 2^24 |
| Codec.NullMeaningIsBad | ChatScript-6.9/SRC/dictionarySystem.cpp:1830-1833 | a witness: a short entry with one null meaning is written but does not read back |
| Codec.DictionaryBackIff | ChatScript-6.9/SRC/dictionarySystem.cpp:1858-1874 | a written dictionary is read to the date stamp if and only if no entry has a null meaning; every entry is back, in the same order, if and only if besides every gloss text is put below 2^24, where the places follow from the words, idioms, lists and glosses read before; later entries change no gloss seen before |
| Codec.Cursor.Write | ChatScript-6.9/SRC/dictionarySystem.cpp:1449-1516 | appends the low bytes first |
| Codec.Cursor.WriteBody | ChatScript-6.9/SRC/dictionarySystem.cpp:1549-1623 | writes the parts of an entry in the order of the code |
| Codec.Cursor.Read | ChatScript-6.9/SRC/dictionarySystem.cpp:1642-1740 | reads a number of any width and moves past it |
| Codec.Cursor.ReadEntryBody | ChatScript-6.9/SRC/dictionarySystem.cpp:1788-1855 | reads the parts of an entry in the order of the code, its strings and lists into the arena, and gives up at a null meaning |
| GrowingList.GrowsAtPowers | ChatScript-6.9/SRC/dictionarySystem.cpp:2162 | the test on two successive counts is true exactly at powers of two |
| GrowingList.GrownFits | ChatScript-6.9/SRC/dictionarySystem.cpp:2161-2170 | in a list grown from nothing the next entry always lands inside the block |
| GrowingList.LoadedFitsIff | ChatScript-6.9/SRC/dictionarySystem.cpp:1823-1826 | in a list read from the binary dictionary the next entry lands inside its block if and only if the new count is a power of two |
| GrowingList.NeverBothPrepositions | ChatScript-6.9/SRC/dictionarySystem.cpp:2158 | the filter for duplicate prepositions never applies |
| GrowingList.RunIsBounded | ChatScript-6.9/SRC/dictionarySystem.cpp:2136-2171 | however many meanings are added, there are at most 63, none twice, and those stored first stay |
| GrowingList.AddedIs | ChatScript-6.9/SRC/dictionarySystem.cpp:2136-2171 | a locked word or one with 63 meanings is refused; else the meaning answered is in the list: behind all there were, or as it was there |
| GrowingList.CompletedIs | ChatScript-6.9/SRC/dictionarySystem.cpp:2145-2146 | a meaning without word and index becomes that of the word itself, of its next index, marked a synset, of the type it had; one with a word stays as it is |
| GrowingList.List.Append | ChatScript-6.9/SRC/dictionarySystem.cpp:2161-2170 | appends inside the block, moving all entries to one of twice the size when due |
| GrowingList.List.AddMeaning | ChatScript-6.9/SRC/dictionarySystem.cpp:2136-2171 | in place: refused when locked or full, found when present, else appended |
| GrowingList.List.AddGloss | ChatScript-6.9/SRC/dictionarySystem.cpp:2101-2127 | in place: refused when locked or shared with an idiom, found when present, else appended |
| MeaningText.WrittenIsReadIff | ChatScript-6.9/SRC/dictionarySystem.cpp:2221-2282 | reading the written form of a meaning gives it back if and only if a synset mark does not stand alone and the text is not an escaped single character |
| MeaningText.WrittenIsFound | ChatScript-6.9/SRC/dictionarySystem.cpp:2280 | with FindWord as the lookup, unless the name is always filed in lower case |
| MeaningText.WrittenIsStored | ChatScript-6.9/SRC/dictionarySystem.cpp:2280 | with StoreWord as the lookup, for every stored word |
| MeaningText.PackIsInjective | ChatScript-6.9/SRC/common1.h:39-51 | no two meanings have the same bits |
| MeaningText.PackBits | ChatScript-6.9/SRC/common1.h:39-51 | where the word, the index, the synset mark and the part of speech are among the bits of a meaning |
| MeaningText.WrittenForm | ChatScript-6.9/SRC/dictionarySystem.cpp:2432-2471 | what written meanings look like, one of each kind |
| Rings.InsertKeepsDisjoint | ChatScript-6.9/SRC/dictionarySystem.cpp:1175-1221 | inserting keeps the map a union of disjoint rings |
| Rings.InsertExtendsRing | ChatScript-6.9/SRC/dictionarySystem.cpp:1204-1221 | the entry goes onto the ring of the base, right after it |
| Rings.InsertKeepsOtherRings | ChatScript-6.9/SRC/dictionarySystem.cpp:1175-1221 | no other ring changes |
| Rings.RefusedIff | ChatScript-6.9/SRC/dictionarySystem.cpp:1198-1202 | the map stays as it was if and only if the entry is already on a ring |
| Rings.RunKeepsDisjoint | ChatScript-6.9/SRC/dictionarySystem.cpp:1175-1221 | every run from a union of disjoint rings stays one |
| Rings.RingExists | ChatScript-6.9/SRC/dictionarySystem.cpp:2846-2899 | every word on the map is on a ring that comes back to it |
| Rings.WalkRing | ChatScript-6.9/SRC/dictionarySystem.cpp:2846-2863 | the walk of VerifyEntries ends, never falls off, and visits once each word of the one ring there is from its start |
| Rings.Irregular.AddTense | ChatScript-6.9/SRC/dictionarySystem.cpp:1211-1215 | in place for tenses, the other maps untouched |
| Rings.Irregular.AddPlural | ChatScript-6.9/SRC/dictionarySystem.cpp:1216-1220 | in place for plurals |
| Rings.Irregular.AddComparison | ChatScript-6.9/SRC/dictionarySystem.cpp:1206-1210 | in place for comparisons |
| Handshake.HandshakeIsSafe | ChatScript-6.9/SRC/csocket.cpp:734-832 | in every state of every run, with any number of clients: accesses to a request come in the one allowed order and no client publishes twice; while the server works the buffer is live and not marked done; an answered client was served exactly once, on its own request, with the answer in its own buffer |
| Handshake.LoneClientIsAnswered | ChatScript-6.9/SRC/csocket.cpp:969-1001 | a client alone with a waiting server is answered: the reply to its own request is in its memory after their turns |
| Handshake.EachInTurn | ChatScript-6.9/SRC/csocket.cpp:1070-1120 | and the server is then ready again, so that clients that come one after another are all answered |
| Handshake.ServerGetsReady | ChatScript-6.9/SRC/csocket.cpp:1070-1120 | from the start the server gets ready by itself |
| Handshake.ClientReleases | ChatScript-6.9/SRC/csocket.cpp:734-790 | a client that owns the mutex releases it within four of its own steps, to wait for its answer or to try again |
| Handshake.ServerReleases | ChatScript-6.9/SRC/csocket.cpp:1070-1120 | the server, owning the mutex, releases it within nine of its own steps, having served the request there was |
| Handshake.NextKeepsInv | ChatScript-6.9/SRC/csocket.cpp:982-1001 | every step of any thread keeps the invariant of mutex, flags and buffers |
| Handshake.RunNeverOverwrites | ChatScript-6.9/SRC/csocket.cpp:986-987 | in every run, between the publications of two requests the first is marked, and they are of different clients |
| Handshake.RunNeverTouchesAfter | ChatScript-6.9/SRC/csocket.cpp:824-832 | in every run the server never touches a buffer after marking it done or after its client freed it |
| Handshake.RunServesWhileOpen | ChatScript-6.9/SRC/csocket.cpp:1070-1120 | in every run the server reads, answers and marks a buffer only after its publication and before its mark or its release |
| Framing.ThreeOfFrame | ChatScript-6.9/SRC/csocket.cpp:275-281 | the first three zero-terminated strings of what the client frames are what it framed |
| Framing.CutsDoNotMatter | ChatScript-6.9/SRC/csocket.cpp:899-942 | for every way of cutting the stream into nonempty receives below the limit the server gets its first three strings |
| Framing.ServerGetsWhatClientSent | ChatScript-6.9/SRC/csocket.cpp:899-942 | so it recovers exactly the user, bot and message sent |
| Framing.TooMuchIsRefused | ChatScript-6.9/SRC/csocket.cpp:903 | a frame at or above the limit is refused, however it is cut |
| Framing.Receive | ChatScript-6.9/SRC/csocket.cpp:899-942 | the receive loop over its memory, each receive written before its length is looked at, every write inside the memory, equals the receiver of the laws |
| Framing.Scan | ChatScript-6.9/SRC/csocket.cpp:928-941 | the inner loop finds as many terminators as have come, and records where the strings start |

## Left out

- FactRevise.Revise: the branches for JSON facts, and revisions of several fields of which some are fact-valued: RewriteFact has those one at a time.
- FactRevise.ReviseKeepsThreadedIff: revisions of words only; RewriteFactBreaks has the fact-valued field.
- FactStores.FactStore.ReviseFact: words only; the branch for a fact-valued field is the method ReviseFactField, one field at a time.
- FactKill.KillFact: JSON arrays and objects, and the renumbering of an array, are not part of this model.
- FactClosure.KillIsClosure: for objects that are words; with a fact as object FactObjectKillIsCleanIff says when it holds.
- Facts.FreeTop: the undo of a variable assignment changes the variable, which is not modelled; the record itself is.
- FactStores.FactStore.FreeFact: the same: a variable is not put back.
- FactStores.FactStore.CreateFact: the checks of a field's spelling and the reinterpretation of its words before the fact is looked up.
- FactFind.CreateFact: the checks of a field's spelling and the reinterpretation of its words before the fact is looked up.
- FactStores.FactStore.KillFact: no JSON facts; asks for room for the death records while planning; a full arena loses records, as SpecialFact states.
- Backtrack.Perform: creates facts whose object is a word, and skips an operation that the stores could not make: a creation refused for its subject is skipped by the code too, and one refused for its verb or object has the effect RefusedCreateIsCleanIff states; marks and words have room.
- Backtrack.RestoreMark: the trimming of fact sets; SetTrim models it, over the facts alone.
- Backtrack.RestoreRestores: facts and dictionary, not the fact sets, which SetTrim shows are not restored.
- Backtrack.RefreshRestores: the same.
- Backtrack.RunIsRestored: the same.
- PlannerEngine.Engine.RefreshMark: without the trimming of fact sets, which is SetTrim.TrimSets.
- PlannerEngine.Engine.RestoreMark: the same.
- SetTrim.TrimKeepsFreed: sets of ordinary facts, and runs that ask for no fact that is dead from the start.
- Lexicon.StoreWord: the splitting and joining of a text is a parameter, as is that of the first word of several; the internal bits other than that of the upper-case bucket, and a string arena that is full.
- Lexicon.AllocateWord: the string arena never runs full.
- Lexicon.Allocate: the top of the string arena is at a multiple of 64, as InitDictionary lays it out.
- LexiconUndo.Restored: does not cover the header byte of an entry or the properties of words above the lock, which the code does not undo (HeaderIsUndoneIff, PropertyIsUndoneIff).
- Dictionaries.Dictionary.FindWord: a word is given whole; an entry beyond those in use matches nothing.
- AddParseBits: ignored on locked words and not logged; it would add a third copy of an easier mutator.
- Lookup.FindWord: a word is given whole, not as the first letters of a longer text.
- PlannerEngine.Engine.PlanCode: the engine holds its two stores as snapshots; that their operations in place give these snapshots is stated by the classes of the stores.
- Dictionaries.Dictionary.NewEntry: the arena of entries is a sequence that grows and shrinks at its end, not an array with a bump index.
- Planner.RunSteps: what a rule does to variables, output buffers, the topic stack and call depth; a rule performs store operations and planner calls.
- Iterator.ConceptIterator.Next: no fact is created or killed between two calls, and no concept leads back to itself.
- Inference.SetContainsIsReachability: the if-and-only-if is for generic meanings, no exclusion of a word reached, and fewer than 20000 live facts a word, which is where it holds; the trace back through the search is not kept. Where a concept excludes a word reached, the answer depends on the order of the search as well: a word marked on another way excludes too.
- QueryAnswers.HitsAreAnswers: for queries that end below their limit, and matches that do not depend on the words marked so far; offset 3 goes with facts as items, as the controls set it.
- PlanOutcomes.EndedPlanCreates: for creations whose fields name something before the call.
- PlanOutcomes.PlanMakesAsked: the same.
- Inference.Searcher.NextInferMark: the mark counter does not wrap around.
- Inference.Searcher.Contains: the same.
- Query.Scan: the zones before the scan that parse controls, mark words and fill the queue, searches for topics and concepts, and the traceback of answers; every query starts with the match zone given.
- Query.AddWord: the type restriction and the flag that keeps synsets from being queued are not used by the scan loop.
- Query.Run: the marks of facts and words are sets handed along, not flags changed in place; a queue on which the program would not come back, which ScanEndsIff tells, is not given.
- SortedSets.FactSets.SortCode: the reading of the arguments; sorting by age compares addresses of rows, not facts, and is not modelled; numbers are reals, so no NaN and no rounding.
- SortedSets.SortFacts: the same: two of the three orders, over exact numbers.
- SortedSets.SortIsRightIff: the key set not listed again as a chained set; the next two have the case of one that is.
- SortedSets.ListedAgainIff: once again; ListedTimes has any number of times.
- SortedSets.ListedTimes: not with @20 among the chained sets.
- SortedSets.ListedFlagsIff: not with @20 among the chained sets, nor with a fact listed twice in the key set; OrderedKeyStays has both for a key set in order.
- Codec.Valid: an entry the format can hold, its hash that of its spelling, without glosses where the code counts none; the writer is given the glosses as GetGlossIndex and GetGloss show them.
- Codec.ReadDictionary: files, and the exit from the program on an entry that is cut short, has no end byte or has a null meaning, which is a refusal here.
- GrowingList.List.AddGloss: for words whose glosses are counted; names and substitutes always count none.
- MeaningText.ReadMeaning: quoted texts, texts longer than the buffers, and written meanings with several parts of speech.
- Rings.InsertKeepsDisjoint: an entry is a word, not null.
- Handshake.Next: timeouts, crashes, restarts, sockets and the test lock; an address is not empty. The waits of the Linux server do not look at chatWanted and are not part of this model.
- Framing.Received: errors of the socket are the end of the connection; the address in front of the request is kept aside.
- ResetFactSystem: the emptying of fact sets that hold freed facts.
- ReadDictDetailsBeforeLayer, WriteDictDetailsBeforeLayer: files kept beside the layers.
- SaveSentence, RestoreSentence and the tried-meaning accessors: another user of the string arena.
- Tracing, logging, pattern matching, script compilation, tagging, spelling, JavaScript, databases: input, output or code of other parts.
