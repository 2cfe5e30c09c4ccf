# Study tracker core in Dafny

This is a model of the two stores behind a personal study and project tracker.

**Flashcard deck** (`anki.py`, module `Anki` in `anki.dfy`):
- a list of cards, each with front and back text and a "reverse" flag;
- when the flag is set, a second card holds the same text swapped;
- each card carries SuperMemo SM-2 scheduling state: easiness factor (EF), interval, repetitions and review date.

The deck operations are:
- `create_card` adds a card and, when asked, its reverse copy;
- `get_card` looks a card up;
- `update_card` edits a card's text and flag (what it does to the reverse copy is under "Findings");
- `delete_card` removes a card and its reverse copy;
- `get_due_cards` lists what is due today;
- `process_card_review` applies the SM-2 update for a rating from 0 to 5.

**Project store** (`data_handler.py`, module `DataHandler` in `data_handler.dfy`):
- a list of projects, each with nested tasks and progress updates;
- queries: one project with its tasks filtered by status, projects by status category with their next task due date, the flattened task overview with status filters and due-date sorting, and the completion dates for the activity calendar;
- edits: creating projects and tasks, overwriting the fields of one project or task, adding and deleting project updates.

`common.dfy` (module `Common`) holds `Option`, the `Day` type with its last representable day, and the two generic list operations:
- `Find`, the first index satisfying a condition (Python's `next(... , None)` search);
- `Filter`, a list comprehension with a condition.

Both stores are classes:
- `Anki.CardStore` has one field `cards`, and `DataHandler.ProjectStore` has one field `projects`. Loading the JSON file reads that field and saving assigns it.
- Each operation that saves is a method with `modifies this`. Its postcondition sets the new contents equal to a function of the old contents (`CardUpdated`, `CardDeleted`, `ProjectUpdated`, …).
- The properties the program promises are proved as lemmas about those functions and as their own postconditions.

The read-only loops are methods over the loaded list, proved against specification functions. These are the loops of `get_projects_by_category`, `get_all_tasks`, `get_completion_data` and the reverse-card scan of `delete_card`.

Modelling conventions:
- **Dates** are ordinal day numbers (0001-01-01 is day 1). Zero-padded ISO `YYYY-MM-DD` strings compare in the same order. `'9999-12-31'`, the last date Python's `datetime` can hold, is `MaxDay` = 3652059; the project store's "no date" sentinel `FarFuture` is that day.
- **Review errors.** `process_card_review` raises `OverflowError` before the deck is saved in two cases. The first is at anki.py:155: `(5 - rating) * 0.02` converts the integer `5 - rating` to a double, which fails when |5 − rating| ≥ 2^1024 − 2^970 (`RatingOverflows`). The second is at anki.py:158: the next date would fall after 9999-12-31. In both cases the model leaves the deck unchanged and `ProcessCardReview` reports the error in its `overflow` result.
- **Defaults.** The source's keyword defaults are Dafny parameter defaults: `task_status='active'`, `sort_by='due_date'`, `order='asc'`, `status="active"`, `reverse=False` and no status selection.
- **Missing values.** A missing, `None` or empty date is `None`. A falsy `task_status` is `""`. A `None` or empty status selection is the empty sequence.
- **EF** is an integer in hundredths: 2.5 is 250 and the floor 1.3 is 130.
  - The change 0.1 − q·(0.08 + 0.02·q), with q = 5 − rating, is exactly 10 − q·(8 + 2q) hundredths for every integer rating.
  - So the model needs no floating point. The source has no range check on the rating; the only limit is the double conversion above, which every rating within 2^1023 of 5 passes.
- **Rounding.** `round(interval * EF)` is `RoundHalfEven(interval * EF, 100)`: the nearest integer, with ties going to the even one, as Python 3's `round` does.
- **Inputs instead of effects.** The current date, generated uuids and update timestamps are method parameters.

## Model

| member | source | states |
|---|---|---|
| Common.Find | anki.py:66 | the index found is the first whose element satisfies the condition; None exactly when no element does |
| Common.FilterMember | anki.py:126-127 | an element is in the filtered list exactly when it is in the input and satisfies the condition |
| Common.FilterDropsOne | anki.py:96 | filtering out one element that fails the condition, between stretches that all pass it, leaves those stretches joined in order |
| Anki.EasinessDelta | anki.py:155 | the EF change per rating is +10, 0, −14, −32, −54, −80 hundredths for ratings 5 … 0; it is never positive below rating 5 and at most −32 for a failed recall |
| Anki.RoundHalfEven | anki.py:149 | the result is within half a unit of n/d, and an exact tie gives the even neighbour (Python's `round`) |
| Anki.Reviewed | anki.py:137-159 | a rating below 3 resets repetitions to 0 and interval to 1; otherwise repetitions goes up by one and the interval becomes 1, 6 or round(interval × EF before this review); the new EF is the old EF plus the rating's delta but never below 1.3; the review date is today plus the new interval; id, text, flag and creation date are unchanged |
| Anki.ReviewKeepsWellFormed | anki.py:138-155 | a review of a card with EF ≥ 1.3, interval ≥ 1 and repetitions ≥ 0 keeps all three bounds |
| Anki.SuccessNeverShortensInterval | anki.py:148-149 | a successful review with a streak of two or more never gives a shorter interval, since EF ≥ 1.3 |
| Anki.ReviewsKeepWellFormed | anki.py:131-161 | any sequence of reviews keeps the EF, interval and repetition bounds |
| Anki.FirstThreeSuccesses | anki.py:142-159 | a new card reviewed 5, 4, 5 gets intervals 1, 6, 16 and is due 1, 7 and 23 days after the first review |
| Anki.ReviewIsNotIdempotent | anki.py:142-152 | reviewing twice with a passing rating advances the streak twice |
| Anki.CardIndex | anki.py:134 | the position of the first card with the id, or None when no card has it |
| Anki.GetCard | anki.py:63-66 | None exactly when no card has the id; otherwise the first stored card with that id |
| Anki.DueCards | anki.py:121-129 | exactly the stored cards whose review date is today or earlier |
| Anki.DueCardsKeepOrder | anki.py:126-127 | the due cards of a deck split in two are those of the first part followed by those of the second: the stored order is kept |
| Anki.CreatedCards | anki.py:29-58 | one new card, or two when reverse is set; each has EF 2.5, interval 1, no repetitions and is due and created today; the second card has front and back swapped and no reverse flag |
| Anki.CreateKeepsStore | anki.py:24-61 | with fresh ids, creating keeps ids unique and all cards well formed, and a reversed new card has its swapped copy in the deck |
| Anki.CardReviewed | anki.py:131-161 | only the first card with the id is replaced, by its reviewed form, whose review date is at most 9999-12-31; an unknown id, a rating too large to convert to a double, or a next date past 9999-12-31 (each an `OverflowError` before the save) leaves the list unchanged; the length is kept |
| Anki.ModerateRatingsConvert | anki.py:155 | a rating whose distance from 5 is below 2^1023 never hits the double-conversion overflow |
| Anki.ScaleRatingsConvert | anki.py:155 | no rating from 0 to 5 hits the double-conversion overflow |
| Anki.ReviewKeepsStore | anki.py:131-161 | a review keeps ids unique and every card well formed |
| Anki.PairIds | anki.py:115-117 | exactly the ids of the cards holding the card's text swapped |
| Anki.CardDeleted | anki.py:104-119 | an unknown id leaves the list unchanged; no remaining card has the id, and every remaining card was stored before; for a card without the reverse flag exactly the cards with other ids remain |
| Anki.DeleteRemovesCardAndPair | anki.py:107-117 | with unique ids, the cards left are exactly those with another id that, when the deleted card was reversed, do not hold its text swapped |
| Anki.DeleteKeepsStore | anki.py:104-119 | deleting keeps ids unique and every card well formed |
| Anki.PairRemovalStep | anki.py:115-117 | one step of the scan over the snapshot removes the id of the next swapped card and nothing else |
| Anki.RemovePairsOf | anki.py:114-117 | the scan over a snapshot of the list removes exactly the ids of the cards holding the card's text swapped |
| Anki.PairIndex | anki.py:84-89 | the position of the first card whose front and back are the given back and front, or None when there is none |
| Anki.CardUpdated | anki.py:68-102 | an unknown id leaves the list unchanged; the list never grows; whenever the flag ends up on, or the card was not reversed, only the edited card's text and flag change; unticking a reversed card removes every card with the id of the first card of the edited list that holds the new text swapped (the card itself when front equals back), and nothing when there is none |
| Anki.WithoutUniqueId | anki.py:96 | with unique ids, removing the id of the card at one position removes exactly that card and keeps the others in order |
| Anki.FlagOnLeavesOtherCards | anki.py:78-102 | when the flag ends up on, the saved deck is the old deck with only the edited card changed, so the card has a swapped copy exactly when some other card already held its new text swapped |
| Anki.UntickRemovesOneCard | anki.py:84-96 | with unique ids, unticking a reversed card removes exactly one card: the first card of the edited list holding the new text swapped |
| Anki.UpdateKeepsStore | anki.py:68-102 | editing keeps ids unique and every card well formed |
| Anki.EnablingReverseLosesPair | anki.py:91-102 | switching the flag on saves the card flagged reverse but with no swapped copy |
| Anki.EditingTextOrphansPair | anki.py:78-89 | editing the text of a reversed card leaves its old swapped copy untouched and the card with no copy |
| Anki.UntickingSymmetricCardDeletesIt | anki.py:84-96 | switching the flag off on a reversed card whose front equals its back deletes the card itself and keeps its copy |
| Anki.UntickingSymmetricCardRemovesItself | anki.py:84-96 | with unique ids, unticking a reversed card with front equal to back, when no earlier card holds that text, removes the card itself and keeps every other card in order |
| Anki.OtherPairIndex | anki.py:84-89 | the position of the first card other than the given one that holds its text swapped, or None |
| Anki.CardUpdatedIntended | anki.py:68-102 | an unknown id leaves the list unchanged |
| Anki.UpdateIntendedKeepsPair | anki.py:82-100 | under the corrected edit the edited card stays in the deck, and a card flagged reverse has a swapped copy with another id |
| Anki.UntickIntendedRemovesPair | anki.py:84-96 | with unique ids, the corrected edit that unticks a reversed card removes exactly its swapped copy (found by its old text, never the card itself) and keeps every other card, the edited one included |
| Anki.CardStore.constructor | anki.py:8-17 | a missing or unreadable file gives an empty deck |
| Anki.CardStore.CreateCard | anki.py:24-61 | the new cards are appended to the deck and the card's id is returned |
| Anki.CardStore.UpdateCard | anki.py:68-102 | the deck becomes `CardUpdated` of the old deck: the card saved by the nested `create_card` is overwritten by the final save |
| Anki.CardStore.DeleteCard | anki.py:104-119 | the deck becomes `CardDeleted` of the old deck |
| Anki.CardStore.ProcessCardReview | anki.py:131-161 | the deck becomes `CardReviewed` of the old deck; the field-by-field update equals `Reviewed`; `overflow` is set exactly when the rating cannot be converted to a double or the next review date cannot be represented, and then nothing is saved |
| DataHandler.ProjectIndex | data_handler.py:27 | the position of the first project with the id, or None when no project has it |
| DataHandler.TaskIndex | data_handler.py:119 | the position of the first task with the id, or None when no task has it |
| DataHandler.GetProject | data_handler.py:24-33 | None exactly when no project has the id; otherwise the first such project with every field but its tasks unchanged; with a non-empty status its tasks are exactly its tasks with that status, in order; with an empty one they are unchanged |
| DataHandler.EarliestTarget | data_handler.py:42-51 | None exactly when no task is active with a target date; otherwise the target date of one such task and no later than any of them |
| DataHandler.NextTaskDueDateIsEarliest | data_handler.py:42-56 | the next due date is the sentinel when no active task has a target date; otherwise it is one of those dates and no later than any of them |
| DataHandler.GetProjectsByCategory | data_handler.py:35-59 | exactly the projects whose status is the category, in stored order, each with its next task due date |
| DataHandler.SelectedTaskRowsMembership | data_handler.py:134-151 | a row is produced for a project's tasks exactly when it is the row of one of its tasks and passes both status filters |
| DataHandler.SelectedRowsMembership | data_handler.py:133-151 | a task appears in the overview exactly when its project's status is selected (or none is) and its own status is selected (or none is) |
| DataHandler.Insert | data_handler.py:155 | inserting adds exactly the one row |
| DataHandler.InsertKeepsSorted | data_handler.py:155 | inserting into rows ordered by due date keeps them ordered |
| DataHandler.SortByDue | data_handler.py:154-155 | the result is a permutation of the rows, ordered by target date with a missing date counted as 9999-12-31, ascending or descending |
| DataHandler.InsertKeepsKeyOrder | data_handler.py:155 | inserting a row passes only rows with a different key: among the rows of any one key the new row comes first and the others keep their order |
| DataHandler.SortByDueIsStable | data_handler.py:155 | the sort is stable in both directions, as `list.sort` is: for every key, the rows with that key come out in their input order |
| DataHandler.GetAllTasks | data_handler.py:129-157 | the result is a permutation of the selected rows; with `due_date` sorting it is ordered by due date (descending exactly when order is "desc") and equals `SortByDue` of the selected rows, so rows with equal dates, every undated task among them, keep project and task order; otherwise it is the selected rows in project and task order |
| DataHandler.AppendTaskCompletions | data_handler.py:193-199 | the task loop appends exactly the entries of the tasks with a completion date, in task order, after what was collected before |
| DataHandler.GetCompletionData | data_handler.py:181-201 | the result is each project's completion, when it has a date, followed by those of its dated tasks, project by project |
| DataHandler.TaskCompletionsMembership | data_handler.py:193-199 | a task entry is present exactly when some task has a completion date; it carries that date and the task's description |
| DataHandler.CompletionsMembership | data_handler.py:181-201 | the completion data holds exactly the entries of dated projects (with title) and dated tasks (with description) |
| DataHandler.ProjectUpdated | data_handler.py:80-92 | only the first project with the id changes; its seven listed fields take the new values, and its id and tasks are kept; an unknown id changes nothing |
| DataHandler.UpdateProjectIsIdempotent | data_handler.py:83-92 | repeating the same project update changes nothing |
| DataHandler.TaskCreated | data_handler.py:94-112 | only the first project with the id changes, by gaining the task at the end of its tasks; an unknown id changes nothing |
| DataHandler.TaskUpdated | data_handler.py:114-127 | only the first task with the task id in the first project with the project id changes; its six listed fields take the new values, and its id and updates are kept; a missing project or task changes nothing |
| DataHandler.UpdateTaskIsIdempotent | data_handler.py:117-127 | repeating the same task update changes nothing |
| DataHandler.UpdateAdded | data_handler.py:159-171 | only the first project with the id changes, by gaining the update at the end of its updates; an unknown id changes nothing |
| DataHandler.UpdateDeleted | data_handler.py:173-179 | only the first project with the id changes; no update with the id is left, and every other update is kept in order |
| DataHandler.DeleteUpdateIsIdempotent | data_handler.py:176-179 | deleting the same update twice is the same as deleting it once |
| DataHandler.ProjectStore.constructor | data_handler.py:8-17 | a missing or unreadable file gives an empty project list |
| DataHandler.ProjectStore.CreateProject | data_handler.py:61-78 | a project with no completion date, updates or tasks is appended and its id is returned |
| DataHandler.ProjectStore.UpdateProject | data_handler.py:80-92 | the list becomes `ProjectUpdated` of the old list |
| DataHandler.ProjectStore.CreateTask | data_handler.py:94-112 | the list becomes `TaskCreated` of the old list with a task without updates; the task id is returned exactly when the project exists |
| DataHandler.ProjectStore.UpdateTask | data_handler.py:114-127 | the list becomes `TaskUpdated` of the old list |
| DataHandler.ProjectStore.AddProjectUpdate | data_handler.py:159-171 | the list becomes `UpdateAdded` of the old list with the new update |
| DataHandler.ProjectStore.DeleteProjectUpdate | data_handler.py:173-179 | the list becomes `UpdateDeleted` of the old list |

## Left out

- File I/O: `load_anki_data`, `save_anki_data`, `load_data` and `save_data` (anki.py:8-22, data_handler.py:8-22) are replaced by reading and assigning the store's field. The JSON encoding is not modelled. The empty-store fallback for a missing or corrupt file is the constructor. The error message it prints is not modelled.
- `uuid.uuid4()`, `datetime.now()` and the update timestamp are parameters. That generated ids are fresh is a precondition where a lemma needs it.
- Floating-point EF: EF is exact hundredths. IEEE rounding of `interval * EF`, such as 6 × 2.6 evaluating to 15.600000000000001, is not modelled. For a rating far outside 0-5 whose conversion succeeds, the double formula can reach minus infinity without raising; the EF then floors to 1.3, which is what the exact model gives too.
- Dates are day numbers rather than ISO strings. A malformed date string, which would compare as text, is not modelled.
- Python dictionaries are modelled as values. The in-place mutation of the loaded dictionaries and any aliasing between them is not modelled; each edit builds the new list.
- Anki.CardStore.UpdateCard: the nested `create_card` call's own load and save of the file is modelled as a call to `CreateCard` on the same store, which the final save then overwrites.
- DataHandler.GetProjectsByCategory: `next_task_due_date` is returned as a `CategorizedProject` pair rather than added to the stored project dictionary in place.
- Records missing required keys, and values of other types than the ones used here, are not modelled. Python would raise `KeyError` or `TypeError` for them.
- Concurrency: interleaved load-modify-save of the JSON files by concurrent requests is not modelled.
- `app.py` (web routes, forms, templates and the calendar heatmap) and `utils.py` (static file listing, session) are not part of this model.

## Findings

| source | as written | input that shows it | evidently intended | confidence | as-written member | corrected member |
|---|---|---|---|---|---|---|
| anki.py:91-102 | switching the reverse flag on calls `create_card`, which saves the deck with the new reverse card; `save_anki_data(data)` then saves the older in-memory list over it | deck [a: "x"/"y", not reversed]; `update_card("a", "x", "y", True)` | a gains a reverse card "y"/"x" | medium, not executed | Anki.FlagOnLeavesOtherCards | Anki.UpdateIntendedKeepsPair |
| anki.py:78-89 | the reverse card is searched after the card's text was overwritten, so it is looked up with the new text | deck [a: "x"/"y" reversed, b: "y"/"x"]; `update_card("a", "u", "v", True)` | b becomes "v"/"u" | high, not executed | Anki.FlagOnLeavesOtherCards | Anki.UpdateIntendedKeepsPair |
| anki.py:84-96 | the search runs over all cards, including the card being edited, so a card whose front equals its back finds itself | deck [a: "x"/"x" reversed, b: "x"/"x"]; `update_card("a", "x", "x", False)` | a stays and b is removed | medium, not executed | Anki.UntickingSymmetricCardRemovesItself | Anki.UntickIntendedRemovesPair |
