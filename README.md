# iSchedule in Dafny

A model of the core of iSchedule, an iOS to-do application written in
SwiftUI, together with proofs about it. The application keeps to-do
**lists** and the **tasks** in them. It has two generations:

- **iSchedule** keeps lists and tasks in a Core Data store. The model
  covers:
  - the home screen: lists ordered by name, the "In Progress" and
    "Completed" header counts, and swipe-to-delete of lists, which
    cascades to their tasks;
  - a list's task screen: tasks ordered by due date, the status filter,
    and swipe-to-delete;
  - the add-task and task-settings forms;
  - the task row's completion toggle;
  - the list and task colour and priority conversions;
  - the statistics pie charts;
  - the reminder scheduler;
  - the registration validator and its simpler predecessor.
- **iScheduleV2** keeps everything in in-memory view models. The model
  covers:
  - the list and task view models;
  - the list search;
  - the task status/search filter;
  - the row toggle;
  - the list-settings save;
  - the profile edit/save screen.

One Dafny module models each source file. A few shared modules sit
underneath them:

- `Wrappers`: `Option`;
- `Seqs`: filtering, subsequences, distinct keys;
- `Text`: ASCII lower-casing, substring search;
- `Sorting`: a stable insertion sort by a total preorder;
- `Calendar`: a moment as a day number plus hour, minute and second;
- `Palette`: the eight named colours.

How the source's state is modelled:

- **The Core Data context** is the class `Store.Store`. It holds a
  sequence of `TaskList` records and a sequence of `Task` records. Every
  attribute is optional, as in Core Data. An object's identity is a
  number.
- **`Store.Valid()`** says that identities are unique and that every
  task's list is in the store.
- **The delete rules** of the data model are the methods
  `Store.DeleteList` and `Store.DeleteTask`:
  - deleting a list cascades to its tasks;
  - deleting a task only detaches it from its list.
- **The screens** that change the store are methods on a `Store`. Each
  method's postcondition states the whole new store as a function of the
  old one.
- **The V2 view models** are classes whose `seq` fields the methods
  reassign.

The following are parameters of the model rather than read from a clock
or a device:

- the current time;
- the identities of new objects;
- whether the keychain accepts a write;
- the string `Color.description` yields.

Where a fetch request sorts by a string, the model assumes the following:

- strings compare character by character;
- a missing value sorts first;
- records that compare equal keep store order; Core Data does not promise
  this.

Where the StatisticView fetches have no sort descriptor, the model keeps
store order.

## Model

| member | source | states |
|---|---|---|
| Store.ListsWithout | iSchedule/Manager/CoreDataManager.swift:25 | after deleting a list, exactly the other lists remain and none has that identity |
| Store.TasksWithoutList | iSchedule/Manager/CoreDataManager.swift:25 | the cascade rule: exactly the tasks not linked to the deleted list remain |
| Store.TasksWithout | iSchedule/Manager/CoreDataManager.swift:40 | deleting a task removes exactly the tasks with that identity |
| Store.CascadeKeepsLinks | iSchedule/Manager/CoreDataManager.swift:25 | with the cascade, every remaining task's list is still in the store |
| Store.CascadeIsNeeded | iSchedule/Manager/CoreDataManager.swift:25 | without the cascade, a task of the deleted list would point at nothing |
| Store.Store.constructor | iSchedule/Manager/CoreDataManager.swift:25-40 | a store holds the records it was given and is consistent |
| Store.Store.InsertTask | iSchedule/MainViews/AddTaskView.swift:76 | inserting a new object appends it, keeps the lists, and keeps the store consistent |
| Store.Store.DeleteList | iSchedule/Manager/CoreDataManager.swift:25 | `delete(list)` removes the list and all its tasks, and the store stays consistent |
| Store.Store.DeleteTask | iSchedule/Manager/CoreDataManager.swift:40 | `delete(task)` removes the task and keeps every list |
| Store.Store.SetTask | iSchedule/MainViews/TaskSettingsView.swift:81-85 | an attribute write replaces only that task, and the store stays consistent |
| Store.Store.SetList | iSchedule/MainViews/ListSettingsView.swift:64-65 | an attribute write replaces only that list, and the store stays consistent |
| Palette.Name | iSchedule/MainViews/ListSettingsView.swift:78-100 | every colour has one of the eight lower-case names |
| Palette.NameInjective | iSchedule/MainViews/ListSettingsView.swift:78-100 | different colours have different names |
| TaskPriority.RawValue | iSchedule/MainViews/AddTaskView.swift:80 | a priority's raw value is "Low", "Medium" or "High" |
| TaskPriority.FromRaw | iSchedule/MainViews/TaskSettingsView.swift:24 | `TaskPriority(rawValue:)` succeeds exactly on the three raw values and inverts RawValue |
| TaskPriority.RawValueRoundTrip | iSchedule/MainViews/TaskSettingsView.swift:24 | a stored priority reads back as itself |
| Calendar.JoinDateTime | iSchedule/Manager/NotificationManager.swift:59-65 | the date's day at the time's hour and minute, second 0, within that day |
| Calendar.JoinDependsOnDayHourMinute | iSchedule/Manager/NotificationManager.swift:59-65 | two joins are equal exactly when the days, hours and minutes are |
| ListView.NameLeIsTotalPreorder | iSchedule/MainViews/ListView.swift:12-16 | the name order (missing first) is total and transitive |
| ListView.AllLists | iSchedule/MainViews/ListView.swift:12-16 | `allLists` is a permutation of the stored lists, sorted by name |
| ListView.HeaderCountsPartition | iSchedule/MainViews/ListView.swift:18-32 | the two header counts plus the tasks with any other status add up to all tasks |
| ListView.OtherStatusIsNotCounted | iSchedule/MainViews/ListView.swift:66-67 | a task of another status (or none) changes neither header count |
| ListView.ListsWithoutIds | iSchedule/MainViews/ListView.swift:36-47 | exactly the lists whose identity is not among the deleted remain |
| ListView.TasksWithoutLists | iSchedule/MainViews/ListView.swift:36-47 | exactly the tasks not in a deleted list remain |
| ListView.DeleteLists | iSchedule/MainViews/ListView.swift:36-47 | `deleteList(at:)` leaves the store without the swiped lists of the name-ordered rows and without their tasks |
| ListView.DeleteRows | iSchedule/MainViews/ListView.swift:37-40 | the delete loop leaves exactly the lists and tasks not belonging to a picked row |
| ListView.DeleteRemovesExactlyThePicked | iSchedule/MainViews/ListView.swift:36-47 | every swiped list and its tasks are gone, and every other list and task is kept |
| MyListsView.FetchNumberOfTasks | iSchedule/ModelViews/MyListsView.swift:77-93 | the row's count is the in-progress tasks of that list, at most the list's total |
| MyListsView.CountsExactlyInProgressOfList | iSchedule/ModelViews/MyListsView.swift:80-84 | adding a task raises the count by one exactly when it is in progress and of that list |
| MyListsView.IconBackgroundColor | iSchedule/ModelViews/MyListsView.swift:95-116 | a palette name gives its colour; a missing or unknown name gives gray |
| MyListsView.AgreesWithStatisticView | iSchedule/ModelViews/MyListsView.swift:95-116 | the row icon and the statistics screen colour every list alike |
| ListSettingsView.ColorFromString | iSchedule/MainViews/ListSettingsView.swift:78-100 | a palette name gives its colour; anything else gives orange |
| ListSettingsView.SwatchesRoundTrip | iSchedule/MainViews/ListSettingsView.swift:12 | the eight swatches are every colour, and each swatch's name converts back to it |
| ListSettingsView.FallbacksDiffer | iSchedule/MainViews/ListSettingsView.swift:78-100 | an unknown name shows orange here but gray on the list row; palette names agree |
| ListSettingsView.InitDraft | iSchedule/MainViews/ListSettingsView.swift:14-22 | the form starts with the stored name or ""; a stored colour string is decoded by ColorFromString, so one that is not a palette name opens as orange; with no colour stored it is orange |
| ListSettingsView.InitRecoversStoredColor | iSchedule/MainViews/ListSettingsView.swift:18-20 | a list saved with a palette name opens with that colour selected |
| ListSettingsView.UpdateList | iSchedule/MainViews/ListSettingsView.swift:63-74 | `updateList` writes the name and the colour string into that list only |
| TaskView.RawValue | iSchedule/MainViews/TaskView.swift:10-19 | the three status strings are distinct and name their cases |
| TaskView.DueLeIsTotalPreorder | iSchedule/MainViews/TaskView.swift:34-36 | the due-date order is total and transitive |
| TaskView.FetchTasks | iSchedule/MainViews/TaskView.swift:30-40 | the fetch is exactly the list's tasks, a permutation of them, sorted by due date |
| TaskView.Visible | iSchedule/MainViews/TaskView.swift:71-73 | the shown rows are the fetched tasks matching the filter, in fetch order |
| TaskView.AllShowsEveryTask | iSchedule/MainViews/TaskView.swift:71-73 | under "All" every fetched task is shown |
| TaskView.OddStatusShownOnlyUnderAll | iSchedule/MainViews/TaskView.swift:71-73 | a task of any other status is shown only under "All" |
| TaskView.TasksWithoutIds | iSchedule/MainViews/TaskView.swift:46-58 | exactly the tasks whose identity was not deleted remain |
| TaskView.DeleteTaskRows | iSchedule/MainViews/TaskView.swift:47-50 | the delete loop removes exactly the tasks at the offsets of its rows and keeps every list |
| TaskView.DeleteTask | iSchedule/MainViews/TaskView.swift:46-58 | as written, `deleteTask(at:)` applies the offsets to the unfiltered fetch |
| TaskView.DeleteTaskHitsHiddenTask | iSchedule/MainViews/TaskView.swift:46-78 | as written, swiping the only visible row can delete a hidden task and keep the swiped one |
| TaskView.DeleteVisibleTask | iSchedule/MainViews/TaskView.swift:71-78 | corrected: the offsets are applied to the rows shown |
| TaskView.VisibleDeleteRemovesOnlySwipedRows | iSchedule/MainViews/TaskView.swift:71-78 | corrected: every swiped row is deleted, and only tasks of that list that are shown under the filter are deleted |
| TaskRow.WithCompleted | iSchedule/ModelViews/TaskRow.swift:31-32 | the toggle's setter writes "Completed" or "In Progress" and changes nothing else |
| TaskRow.IsCompleted | iSchedule/ModelViews/TaskRow.swift:30 | the toggle's getter; its properties are stated by TaskRow.WithCompleted and SetWhatIsShown |
| TaskRow.SetWhatIsShown | iSchedule/ModelViews/TaskRow.swift:29-34 | setting the shown value keeps a task whose status is one of the two, and resets any other status to "In Progress" |
| TaskRow.SetCompleted | iSchedule/ModelViews/TaskRow.swift:29-34 | the toggle writes that task only, and the store stays consistent |
| AddTaskView.InitialForm | iSchedule/MainViews/AddTaskView.swift:10-20 | the empty form cannot be saved |
| AddTaskView.IsFormComplete | iSchedule/MainViews/AddTaskView.swift:18-20 | a non-empty name; its properties are stated by AddTaskView.InitialForm and AddTaskView.Save (Save adds the task exactly when it holds) |
| AddTaskView.CombinedDateTime | iSchedule/MainViews/AddTaskView.swift:22-31 | the pickers joined; its properties are stated by AddTaskView.CombinedDateTimeJoinsPickers |
| AddTaskView.NewTask | iSchedule/MainViews/AddTaskView.swift:76-84 | the task `addTask` builds; its properties are stated by AddTaskView.NewTaskHasNoAlert, NewTaskCountedInProgress and NewTaskShownByDefault |
| AddTaskView.CombinedDateTimeJoinsPickers | iSchedule/MainViews/AddTaskView.swift:22-31 | the combined moment depends only on the picked day, hour and minute, at second 0 |
| AddTaskView.AddTask | iSchedule/MainViews/AddTaskView.swift:75-84 | `addTask` appends one in-progress task of the selected list holding the form's fields, and keeps the store consistent |
| AddTaskView.Save | iSchedule/MainViews/AddTaskView.swift:68-71 | Save adds the task exactly when the name is non-empty, and changes nothing otherwise |
| AddTaskView.NewTaskCountedInProgress | iSchedule/MainViews/AddTaskView.swift:83-84 | the new task raises its list's in-progress fetch count by one and no other list's |
| AddTaskView.NewTaskShownByDefault | iSchedule/MainViews/AddTaskView.swift:83-84 | the new task is among the rows its list shows under the default filter |
| AddTaskView.NewTaskHasNoAlert | iSchedule/MainViews/AddTaskView.swift:75-84 | the new task has no alert option, status "In Progress", its list and creation time |
| TaskSettingsView.InitDraft | iSchedule/MainViews/TaskSettingsView.swift:15-25 | the form starts from the stored fields, falling back to "", now and Medium; the alert is "None" |
| TaskSettingsView.Applied | iSchedule/MainViews/TaskSettingsView.swift:81-85 | save writes the five form fields and leaves status, list, alert and creation time alone |
| TaskSettingsView.Save | iSchedule/MainViews/TaskSettingsView.swift:79-95 | save rewrites that task only, and the store stays consistent |
| TaskSettingsView.SaveWithoutEditsKeepsTask | iSchedule/MainViews/TaskSettingsView.swift:18-25 | opening and saving a fully filled task with a known priority changes nothing |
| TaskSettingsView.AlertChoiceIsIgnored | iSchedule/MainViews/TaskSettingsView.swift:15 | the alert picker's choice is never stored |
| StatisticView.ColorFromString | iSchedule/MainViews/StatisticView.swift:74-86 | a palette name gives its colour; a missing or unknown name gives gray |
| StatisticView.ColorNameRoundTrip | iSchedule/MainViews/StatisticView.swift:74-86 | every colour's name converts back to it |
| StatisticView.FetchTasksWithStatus | iSchedule/MainViews/StatisticView.swift:88-107 | exactly the tasks of that status, within the selected list when one is selected |
| StatisticView.FetchTasksFor | iSchedule/MainViews/StatisticView.swift:109-124 | exactly the tasks of that status in that list |
| StatisticView.FetchForIsSelectedFetch | iSchedule/MainViews/StatisticView.swift:88-124 | the two fetch functions agree when a list is selected |
| StatisticView.FetchNumberOfTasks | iSchedule/MainViews/StatisticView.swift:126-137 | at most the number of tasks, and zero exactly when no task is of that list |
| StatisticView.CountsExactlyTasksOfList | iSchedule/MainViews/StatisticView.swift:126-137 | adding a task raises a list's total by one exactly when it is of that list, whatever its status |
| StatisticView.TotalPartitionsByStatus | iSchedule/MainViews/StatisticView.swift:109-137 | a list's total is its in-progress count plus its completed count plus its tasks of any other status or none |
| StatisticView.StatusCountWithinTotal | iSchedule/MainViews/StatisticView.swift:109-137 | a list's count of one status is at most its total |
| StatisticView.StatusSlices | iSchedule/MainViews/StatisticView.swift:24-33 | two slices (blue, orange) whose shares lie in [0, 1] and add up to 1; all blue when there are no tasks |
| StatisticView.TaskStatusPieSlices | iSchedule/MainViews/StatisticView.swift:24-33 | StatusSlices of the two status fetches; its properties are stated by StatisticView.StatusSlices and EmptyStoreStatusShares |
| StatisticView.EmptyStoreStatusShares | iSchedule/MainViews/StatisticView.swift:24-33 | with no tasks the status pie is all "In Progress" |
| StatisticView.PieMap | iSchedule/MainViews/StatisticView.swift:41-47 | the dictionary has one key per shown list |
| StatisticView.PieMapAt | iSchedule/MainViews/StatisticView.swift:41-47 | each list's entry is its fetch for the selected status |
| StatisticView.FilteredTasksForPieChart | iSchedule/MainViews/StatisticView.swift:41-47 | the loop builds that dictionary: one key per list, each mapped to its fetch |
| StatisticView.SlicesFor | iSchedule/MainViews/StatisticView.swift:49-59 | at most one slice per list |
| StatisticView.ListPieSlices | iSchedule/MainViews/StatisticView.swift:49-59 | the list pie; its properties are stated by StatisticView.NoSlicesIffNoMatches, ListSharesSumToOne, SlicesMatchNonEmptyLists and ListPieReadsDictionary |
| StatisticView.HeadSlice | iSchedule/MainViews/StatisticView.swift:49-59 | a list's slice carries its count's share of the total |
| StatisticView.NoSlicesIffNoMatches | iSchedule/MainViews/StatisticView.swift:49-59 | the list pie is empty exactly when no list has a matching task |
| StatisticView.PieTotalZeroIff | iSchedule/MainViews/StatisticView.swift:49-59 | the pie total is zero exactly when no list has a matching task |
| StatisticView.SlicesMatchNonEmptyLists | iSchedule/MainViews/StatisticView.swift:49-59 | one slice per list with a matching task, in row order, coloured by the list |
| StatisticView.DictionaryTaskCountRemove | iSchedule/MainViews/StatisticView.swift:50 | the dictionary's flattened count is one entry's tasks plus the count of the rest, whichever entry is taken |
| StatisticView.PieTotalSnoc | iSchedule/MainViews/StatisticView.swift:43-45 | the total over the lists grows by the last list's matching tasks |
| StatisticView.LastIsFresh | iSchedule/MainViews/StatisticView.swift:43-45 | with distinct lists, the loop's last list is new to the dictionary built so far |
| StatisticView.PieMapSnoc | iSchedule/MainViews/StatisticView.swift:43-45 | the loop's last step adds that list's matching tasks to the dictionary's flattened count |
| StatisticView.PieTotalIsDictionaryCount | iSchedule/MainViews/StatisticView.swift:41-50 | over distinct lists, the dictionary's flattened count is the pie total |
| StatisticView.SlicesFromDictionary | iSchedule/MainViews/StatisticView.swift:52-58 | at most one slice per list, each read from the dictionary |
| StatisticView.DictionarySlicesAreFetchSlices | iSchedule/MainViews/StatisticView.swift:52-58 | reading each list's tasks from a dictionary holding its fetch gives the fetched slices |
| StatisticView.ListPieReadsDictionary | iSchedule/MainViews/StatisticView.swift:41-59 | over distinct lists, `listPieSlices` as written (total and slices read from the dictionary) is ListPieSlices |
| StatisticView.SumSharesAppend | iSchedule/MainViews/StatisticView.swift:49-59 | shares add up over concatenation |
| StatisticView.SlicesSumToCountShare | iSchedule/MainViews/StatisticView.swift:49-59 | the slices' shares add up to the matching tasks' share of the total |
| StatisticView.ListSharesSumToOne | iSchedule/MainViews/StatisticView.swift:49-59 | a non-empty list pie's shares add up to 1 |
| NotificationManager.ReminderContent | iSchedule/Manager/NotificationManager.swift:47-55 | title "iShedule Reminder"; the body begins "Upcoming Task: " and then the name |
| NotificationManager.BodyDeterminesTaskName | iSchedule/Manager/NotificationManager.swift:54 | for the same date and time strings, the body determines the task name |
| NotificationManager.ArmFor | iSchedule/Manager/NotificationManager.swift:73-111 | only the seven offered options other than "None" arm, each subtracting at most its guard |
| NotificationManager.ScheduleAlert | iSchedule/Manager/NotificationManager.swift:44-111 | a request is made exactly when the option arms and there is enough notice; it never fires in the past and carries the reminder content |
| NotificationManager.LeadSeconds | iSchedule/Manager/NotificationManager.swift:73-111 | each option's lead, in seconds, as its name says |
| NotificationManager.ArmsAgainstLeadTable | iSchedule/Manager/NotificationManager.swift:73-111 | the same options arm; every arm but "15 minutes before" guards on and subtracts its lead |
| NotificationManager.RegularOptionFiresLeadBeforeDue | iSchedule/Manager/NotificationManager.swift:73-108 | when enough notice is given, those options fire exactly the lead before the due moment |
| NotificationManager.FifteenMinuteOptionFiresTenMinutesBefore | iSchedule/Manager/NotificationManager.swift:89-93 | "15 minutes before" needs 900 s of notice and fires 600 s before |
| NotificationManager.UnknownOptionSchedulesNothing | iSchedule/Manager/NotificationManager.swift:109-110 | "None" and any unlisted string schedule nothing |
| NotificationManager.CaseVariantSchedulesNothing | iSchedule/Manager/NotificationManager.swift:29 | the documented example "5 Minutes Before" schedules nothing, because matching is exact |
| NotificationManager.FifteenMinuteDefectWitness | iSchedule/Manager/NotificationManager.swift:89-93 | as written, a task due in 15 minutes is reminded 10 minutes before it |
| NotificationManager.ScheduleAlertIntended | iSchedule/Manager/NotificationManager.swift:73-111 | corrected: a request never fires in the past |
| NotificationManager.IntendedFiresLeadBeforeDue | iSchedule/Manager/NotificationManager.swift:73-111 | corrected: every option fires exactly its lead before the due moment, and the rule agrees with the written one on the other options |
| Registration.PasswordRejectsOtherSymbols | iSchedule/ModelViews/UserRegisterViewModel.swift:21-35 | a password holding any character outside `[a-zA-Z0-9@*#]` (a space, `$`, `%`, …) is invalid |
| Registration.IsPasswordValid | iSchedule/ModelViews/UserRegisterViewModel.swift:21-35 | 8 to 15 characters from `[a-zA-Z0-9@*#]`; its properties are stated by Registration.PasswordRejectsOtherSymbols and PasswordExamples |
| Registration.MatchPassword | iSchedule/ModelViews/UserRegisterViewModel.swift:37-43 | a valid password equal to its confirmation; its properties are stated by Registration.RegistrationCompleteCollapses and RegistrationPlain.StricterMatchImpliesPlainMatch |
| Registration.PasswordExamples | iScheduleTests/UserRegistrationTests.swift:18-55 | "Password347" is valid; "valid" and a password with spaces are not |
| Registration.IndexOf | iSchedule/ModelViews/UserRegisterViewModel.swift:45-57 | the first occurrence of the character, or none |
| Registration.LastIndexOf | iSchedule/ModelViews/UserRegisterViewModel.swift:45-57 | the last occurrence of the character, or none |
| Registration.IsEmailValid | iSchedule/ModelViews/UserRegisterViewModel.swift:45-57 | the email check; its properties are stated by Registration.EmailValidIffPattern and EmailShape |
| Registration.EmailValidIffPattern | iSchedule/ModelViews/UserRegisterViewModel.swift:45-57 | the scanner accepts exactly the strings of the email pattern: local@domain.tld, with a 2 to 64 letter tld |
| Registration.EmailShape | iSchedule/ModelViews/UserRegisterViewModel.swift:45-57 | an accepted email has exactly one '@', and a last dot followed by 2 to 64 letters |
| Registration.SplitTail | iSchedule/ModelViews/UserRegisterViewModel.swift:45-57 | the pattern's split ends with a last dot followed by letters |
| Registration.OnlyAtIsTheSplits | iSchedule/ModelViews/UserRegisterViewModel.swift:45-57 | in the pattern's split, the '@' is the only one |
| Registration.SplitHasOneAt | iSchedule/ModelViews/UserRegisterViewModel.swift:45-57 | no other position holds an '@' |
| Registration.EmailExampleAccepted | iSchedule/ModelViews/UserRegisterViewModel.swift:45-57 | "user@example.com" is accepted |
| Registration.EmailExampleRejected | iSchedule/ModelViews/UserRegisterViewModel.swift:45-57 | "user" is rejected |
| Registration.RegistrationCompleteCollapses | iSchedule/ModelViews/UserRegisterViewModel.swift:59-69 | as written, the check holds exactly when the password is valid or the email is valid; the confirmation plays no part |
| Registration.IsRegistrationComplete | iSchedule/ModelViews/UserRegisterViewModel.swift:59-69 | the check as written; its properties are stated by Registration.RegistrationCompleteCollapses and RegistrationCompleteDefectWitness |
| Registration.RegistrationCompleteDefectWitness | iSchedule/ModelViews/UserRegisterViewModel.swift:59-69 | as written, a valid email with an empty password passes |
| Registration.IntendedRegistrationRequiresAll | iSchedule/ModelViews/UserRegisterViewModel.swift:59-69 | corrected: the check needs a valid email, a valid password and a matching confirmation |
| Registration.UserRegisterViewModel.constructor | iSchedule/ModelViews/UserRegisterViewModel.swift:11-16 | empty fields, and the keychain as found |
| Registration.UserRegisterViewModel.SaveCredentials | iSchedule/ModelViews/UserRegisterViewModel.swift:71-83 | the credentials are stored only when the check passes and the keychain accepts them |
| Registration.UserRegisterViewModel.ValidateCredentials | iSchedule/ModelViews/UserRegisterViewModel.swift:86-97 | true exactly when the stored credentials are the given ones |
| RegistrationPlain.MatchPasswordReflexive | iSchedule/ModelViews/UserRegistrationViewModel.swift:16-21 | equal non-empty passwords match, and so do two empty ones |
| RegistrationPlain.MatchPassword | iSchedule/ModelViews/UserRegistrationViewModel.swift:16-21 | the two password fields are equal; its properties are stated by RegistrationPlain.MatchPasswordReflexive, MatchPasswordIgnoresEmail and StricterMatchImpliesPlainMatch |
| RegistrationPlain.MatchPasswordIgnoresEmail | iSchedule/ModelViews/UserRegistrationViewModel.swift:16-21 | the email plays no part |
| RegistrationPlain.StricterMatchImpliesPlainMatch | iSchedule/ModelViews/UserRegistrationViewModel.swift:16-21 | the newer check's match implies this one's; this one also accepts two empty fields |
| ListViewModelV2.FirstIndexOf | iScheduleV2/DataModel/ListViewModel.swift:20-25 | the first list with that identity, or none exactly when no list has it |
| ListViewModelV2.Updated | iScheduleV2/DataModel/ListViewModel.swift:20-25 | only the first list with that identity gets the new name and colour; an unknown identity changes nothing |
| ListViewModelV2.AppendFreshKeepsDistinct | iScheduleV2/DataModel/ListViewModel.swift:16-19 | adding a list with a fresh identity keeps identities distinct |
| ListViewModelV2.UpdatedKeepsDistinct | iScheduleV2/DataModel/ListViewModel.swift:20-25 | updating keeps identities distinct |
| ListViewModelV2.UpdatedFindsTheList | iScheduleV2/DataModel/ListViewModel.swift:20-25 | with distinct identities, updating a list's identity rewrites that list |
| ListViewModelV2.UpdatedIdempotent | iScheduleV2/DataModel/ListViewModel.swift:20-25 | updating twice is updating once |
| ListViewModelV2.SameIdsSameIndex | iScheduleV2/DataModel/ListViewModel.swift:20-25 | the lookup depends only on the identities |
| ListViewModelV2.ListViewModel.constructor | iScheduleV2/DataModel/ListViewModel.swift:11-14 | the two seed lists, "Assignments" (red) and "House Chores" (blue) |
| ListViewModelV2.ListViewModel.AddList | iScheduleV2/DataModel/ListViewModel.swift:16-19 | appends the new list and keeps identities distinct |
| ListViewModelV2.ListViewModel.UpdateList | iScheduleV2/DataModel/ListViewModel.swift:20-25 | the lists become Updated of the old lists |
| ListSettingsViewV2.Save | iScheduleV2/MainViews/ListSettingsView.swift:22-27 | Save updates and dismisses exactly when the name is non-empty |
| ListSettingsViewV2.SaveNeverBlanksATitle | iScheduleV2/MainViews/ListSettingsView.swift:22-27 | no save gives a list an empty title |
| ListViewV2.FilteredLists | iScheduleV2/MainViews/ListView.swift:19-23 | every list when the search is empty; otherwise exactly the lists whose lower-cased title contains it, in order |
| ListViewV2.Shown | iScheduleV2/MainViews/ListView.swift:20-22 | the filter's closure; its properties are stated by ListViewV2.FilteredLists, SearchIsCaseInsensitive and NarrowerSearchFindsFewer |
| ListViewV2.FilterAll | iScheduleV2/MainViews/ListView.swift:19-23 | an empty search shows every list |
| ListViewV2.SearchIsCaseInsensitive | iScheduleV2/MainViews/ListView.swift:19-23 | searches that lower-case alike find the same lists |
| ListViewV2.NarrowerSearchFindsFewer | iScheduleV2/MainViews/ListView.swift:19-23 | a search containing another finds no more lists |
| TaskViewV2.RawValue | iScheduleV2/MainViews/TaskView.swift:23-26 | the two status strings name their cases |
| TaskViewV2.Matches | iScheduleV2/MainViews/TaskView.swift:45-50 | the two `continue` tests of the loop, negated; its properties are stated by TaskViewV2.IndicesUpTo, BothFiltersNarrowEither and SearchIsCaseInsensitive |
| TaskViewV2.Indices | iScheduleV2/MainViews/TaskView.swift:41-55 | `filteredIndices` over the whole list; its properties are stated by TaskViewV2.IndicesUpTo and FilteredIndices |
| TaskViewV2.IndicesUpTo | iScheduleV2/MainViews/TaskView.swift:41-55 | ascending indices, each below n, of exactly the tasks matching status and search |
| TaskViewV2.FilteredIndices | iScheduleV2/MainViews/TaskView.swift:41-55 | the loop returns the ascending indices of exactly the matching tasks |
| TaskViewV2.AllShowsEveryRow | iScheduleV2/MainViews/TaskView.swift:41-55 | with no status and an empty search, every index in order |
| TaskViewV2.BothFiltersNarrowEither | iScheduleV2/MainViews/TaskView.swift:41-55 | a status and a search together show no more than either alone |
| TaskViewV2.SearchIsCaseInsensitive | iScheduleV2/MainViews/TaskView.swift:41-55 | searches that lower-case alike show the same rows |
| TaskViewModelV2.SeedShownByDefault | iScheduleV2/DataModel/TaskViewModel.swift:9-13 | of the three seed tasks, rows 0 and 2 show under the default filter |
| TaskViewModelV2.Seed | iScheduleV2/DataModel/TaskViewModel.swift:9-13 | the three seed tasks; its properties are stated by TaskViewModelV2.SeedShownByDefault |
| TaskViewModelV2.NewTask | iScheduleV2/DataModel/TaskViewModel.swift:15-18 | a new task is in progress, with the given fields |
| TaskViewModelV2.NewTaskShownByDefault | iScheduleV2/MainViews/TaskView.swift:38 | an appended in-progress task shows under the default filter |
| TaskViewModelV2.AppendFreshKeepsTaskIdsDistinct | iScheduleV2/DataModel/TaskViewModel.swift:15-18 | appending a fresh identity keeps identities distinct |
| TaskViewModelV2.TaskViewModel.constructor | iScheduleV2/DataModel/TaskViewModel.swift:9-13 | the three seed tasks |
| TaskViewModelV2.TaskViewModel.AddTask | iScheduleV2/DataModel/TaskViewModel.swift:15-18 | appends the new task and keeps identities distinct when they were |
| TaskRowV2.WithOn | iScheduleV2/ModelViews/TaskRow.swift:29-33 | the toggle's setter writes Completed or In Progress and changes nothing else |
| TaskRowV2.IsOn | iScheduleV2/ModelViews/TaskRow.swift:30 | the toggle's getter; its properties are stated by TaskRowV2.WithOn and SetWhatIsShown |
| TaskRowV2.SetWhatIsShown | iScheduleV2/ModelViews/TaskRow.swift:29-33 | setting the shown value changes nothing |
| TaskRowV2.LastWriteWins | iScheduleV2/ModelViews/TaskRow.swift:29-33 | two toggles leave the last value |
| TaskRowV2.SetOn | iScheduleV2/ModelViews/TaskRow.swift:29-33 | the toggle rewrites that task only |
| ProfileViewV2.KeepUnlessEmpty | iScheduleV2/MainViews/ProfileView.swift:34-44 | a non-empty draft replaces the field; an empty one keeps it |
| ProfileViewV2.Press | iScheduleV2/MainViews/ProfileView.swift:34-44 | Edit copies the profile into the drafts; Save keeps the non-empty drafts; the mode flips |
| ProfileViewV2.EditThenSaveKeepsProfile | iScheduleV2/MainViews/ProfileView.swift:34-44 | Edit then Save with no typing changes nothing |
| ProfileViewV2.SaveNeverBlanks | iScheduleV2/MainViews/ProfileView.swift:34-44 | Save never blanks a filled-in field |
| ProfileViewV2.ModeIsParity | iScheduleV2/MainViews/ProfileView.swift:34-44 | after n presses, the mode is flipped exactly when n is odd |
| ProfileViewV2.ProfileViewModel.constructor | iScheduleV2/DataModel/ProfileViewModel.swift:10-15 | the default profile for that user |
| ProfileViewV2.ProfileView.constructor | iScheduleV2/MainViews/ProfileView.swift:4-8 | the default profile, not editing, empty drafts |
| ProfileViewV2.ProfileView.PressButton | iScheduleV2/MainViews/ProfileView.swift:34-44 | the screen's state becomes Press of the old state |

## Left out

- `requestingNotification` and the notification centre are not modelled:
  - the rule's output is a request value (content and fire instant);
  - calendar triggers, permissions and delivery are foreign frameworks.
- A moment is a whole number of seconds in one calendar whose days have
  86400 seconds. The model does not have:
  - `DateFormatter`: the date and time strings are parameters;
  - time zones and daylight saving;
  - sub-second times;
  - the `?? Date()` fallbacks of the calendar calls, which cannot fail in
    this calendar.
- The keychain is an `Option` of credentials, and whether a write succeeds
  is a parameter. Its error paths are not modelled.
- `viewContext.save()`, `refresh` and their error paths are not modelled:
  every write is assumed to be saved. The `refreshID` identifier that only
  forces a redraw is not modelled.
- Pie shares are exact `real` numbers, not `Double`. Their rendering is
  not modelled.
- Purely visual views are not modelled: layout, the list-icon grid, the
  tab bar, navigation, and the swipe gestures themselves. A swipe arrives
  as offsets; an `IndexSet` is a sequence of offsets.
- MyListsView.FetchNumberOfTasks: the row shows a copy of this count
  taken when the row appears (iSchedule/ModelViews/MyListsView.swift:154-155).
  The model is the fetch itself. A task added or toggled while the row is
  on screen changes the fetch at once, but the shown number only when the
  row appears again. AddTaskView.NewTaskCountedInProgress is about the
  fetch.
- StatisticView.ListPieReadsDictionary: assumes the fetched lists are
  distinct objects, as fetched Core Data objects are. With two rows of
  one identity, the dictionary would merge them, and its count would no
  longer be the pie total.
- ListView: the home screen passes one offset per swipe; the model allows
  any offsets. Its `searchText` is never consulted, so it is not modelled.
- ListSettingsView.UpdateList: `Color.description` is foreign code, so the
  string it writes is the parameter `colorDescription`. The model does not
  claim that this string is a palette name.
- TaskPriority: its declaration is not part of this model. It is taken to
  have the cases Low, Medium and High, whose raw values are those words.
  The order of priorities is not modelled.
- Text.Lower: lower-cases ASCII letters only, not all of Unicode as
  `lowercased()` does.
- TaskSettingsView's `combinedDateTime` is not modelled: it is the same
  computation as AddTaskView's, which is modelled, and neither screen
  stores it.
- StatisticView's `listStatistics` table cells are not modelled separately:
  - their numbers are StatisticView.FetchNumberOfTasks;
  - their colours are StatisticView.ColorFromString.
- Registration.UserRegisterViewModel.SaveCredentials: keeps the
  registration check as written (see Findings), so it can store an empty
  password. The corrected check is proved on its own and not wired in, so
  that the method stays faithful to the code.
- Two tests disagree with the code, and the model follows the code:
  - the notification tests;
  - the test at iScheduleTests/UserRegistrationTests.swift:55, which
    expects "valid" to be a valid password (Registration.PasswordExamples
    proves it is not).

## Findings

| source | as written | input that shows it | evidently intended | confidence | as-written member | corrected member |
|---|---|---|---|---|---|---|
| iSchedule/Manager/NotificationManager.swift:89-93 | "15 minutes before" guards on 15 minutes of notice but subtracts 10 minutes | a task due at 10:15, scheduled at 10:00 with "15 minutes before", is reminded at 10:05 | subtract 15 minutes, like the guard and every other arm | not executed | NotificationManager.FifteenMinuteDefectWitness | NotificationManager.IntendedFiresLeadBeforeDue |
| iSchedule/ModelViews/UserRegisterViewModel.swift:59-69 | the three failures are joined with "and", so the check passes when the password or the email alone is valid | email "user@example.com", password "", confirmation "x" passes | require a valid email, a valid password and a matching confirmation | not executed | Registration.RegistrationCompleteDefectWitness | Registration.IntendedRegistrationRequiresAll |
| iSchedule/MainViews/TaskView.swift:46-78 | the swipe's offsets are those of the filtered rows, but `deleteTask` applies them to the unfiltered fetch | list 7 holds a completed task due on day 1 and an in-progress task due on day 2; under "In Progress", swiping row 0 deletes the hidden completed task | apply the offsets to the rows shown | not executed | TaskView.DeleteTaskHitsHiddenTask | TaskView.VisibleDeleteRemovesOnlySwipedRows |
