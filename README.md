# Licenta educational platform: a Dafny model of its core

The platform is a Django back end with a Svelte client. Students solve
programming problems, teachers set homework for their classes, and users
publish community posts. An administrator accepts or rejects submitted posts
and problems. This project models the parts of that behaviour that decide
what the endpoints answer and how they change the database:

- **Grading** (`grading.dfy`): `submit_and_test_code` sends each test case to
  an external judge and polls each token until a final status arrives. It
  compares the program's stripped output with the stripped expected output and
  builds the report.
  - The judge is an oracle. For the k-th submission it hands out a token or
    none. For a token it answers a finite sequence of poll responses.
  - The model is a method with two loops, proved against a specification
    function `Grade`.
- **Notifications** (`notifications.dfy`): the Notification table is a class
  holding a sequence of rows; a row's id is its position plus one. Users list
  their unread notifications and mark one as read.
- **Posts** (`posts.dfy`): post creation and the like/dislike toggles, the
  listing of accepted posts, the admin's bulk accept/reject actions, and the
  `post_save` receiver that notifies the author.
- **Problems** (`problems.dfy`): the create-payload validators and their
  error texts, and the output formatters. Also problem creation, which is
  always pending, and the same admin actions and `post_save` receiver as for
  posts.
- **Homeworks** (`homeworks.dfy`): the homework endpoints and their
  permission rules (teacher or class member). Deletion unlinks the homework's
  solutions, because the foreign key is SET_NULL.
- **Cookies** (`cookies.dfy`): the client's `getCookie` and `getAuthHeaders`.
  JavaScript's `split` is modelled on leftmost, non-overlapping occurrences,
  and the split is proved to lose nothing.
- **Hooks** (`hooks.dfy`): the client's server hook. It stores the access
  cookie and redirects unauthenticated requests for protected paths to the
  login page.

Shared types (`Option`, `Status`, `Reply`) live in `common.dfy`.

## Model

| member | source | states |
|---|---|---|
| Grading.Strip | djangoApp/code_submission/helpers.py:39 | `strip()` leaves a string no longer than the input that neither starts nor ends with whitespace |
| Grading.StripPadded | djangoApp/code_submission/helpers.py:39 | stripping whitespace-only padding around such a string gives back that string exactly, internal whitespace included |
| Grading.StripDecomposes | djangoApp/code_submission/helpers.py:39 | every string is its stripped form with whitespace around it |
| Grading.StripIdempotent | djangoApp/code_submission/helpers.py:39 | stripping twice is stripping once |
| Grading.FirstFinalFrom | djangoApp/code_submission/helpers.py:30-37 | the index found is the first poll response whose status id is not 1 or 2, and every earlier one is still running |
| Grading.PollUntilDone | djangoApp/code_submission/helpers.py:29-37 | the poll loop stops at the first response with a final status and counts its polls; it yields nothing when the judge's answers run out |
| Grading.FirstFinalAllRunning | djangoApp/code_submission/helpers.py:31-37 | when every response is still running, no final one is found |
| Grading.FirstFinalAt | djangoApp/code_submission/helpers.py:31-37 | a final response preceded only by running ones is the one found |
| Grading.Evaluate | djangoApp/code_submission/helpers.py:39-52 | a result record carries the test-case id, the input and the expected output, and the program's output ("" when the judge sent no `stdout`); it passes exactly when the stripped output equals the stripped expected output |
| Grading.EvaluateFields | djangoApp/code_submission/helpers.py:47-51 | `status`, `compile_output`, `stderr` and `message` reach the record as the judge sent them: an absent key gives "", a JSON `null` stays None, a string is copied |
| Grading.PassedIffSameCore | djangoApp/code_submission/helpers.py:39 | a test passes exactly when the stripped output equals the stripped expected output |
| Grading.TrailingNewlineIgnored | djangoApp/code_submission/helpers.py:39 | an output that differs from the expected one only by a trailing newline passes |
| Grading.InternalWhitespaceMatters | djangoApp/code_submission/helpers.py:39 | internal whitespace differences make the test fail |
| Grading.AbsentStdout | djangoApp/code_submission/helpers.py:39 | with no stdout key, a test passes exactly when the expected output is all whitespace |
| Grading.CountPassed | djangoApp/code_submission/helpers.py:40-41 | the passed count never exceeds the number of results |
| Grading.CountPassedExtend | djangoApp/code_submission/helpers.py:40-41 | one more result adds one exactly when it passed |
| Grading.CountPassedIsCardinality | djangoApp/code_submission/helpers.py:40-54 | the passed count equals the number of passing records |
| Grading.ReportedExtend | djangoApp/code_submission/helpers.py:42-52 | appending the record of the next test case keeps the report in test-case order |
| Grading.RunTestCase | djangoApp/code_submission/helpers.py:18-37 | a test case yields no run exactly when the judge hands out no usable token; a finished run holds a poll answer with a final status and the number of polls up to and including it |
| Grading.RunTestCasePolls | djangoApp/code_submission/helpers.py:29-37 | the answer a run finishes with is the first final one, every earlier answer being still running; a run stays unfinished exactly when every answer is still running |
| Grading.CollectPrefix | djangoApp/code_submission/helpers.py:15-37 | a successful collection of n test cases holds n responses |
| Grading.Results | djangoApp/code_submission/helpers.py:42-52 | one record per collected response |
| Grading.ResultsAt | djangoApp/code_submission/helpers.py:39-52 | record i is the evaluation of test case i against response i |
| Grading.CollectPrefixReport | djangoApp/code_submission/helpers.py:15-37 | collection succeeds exactly when every test case of the prefix reached a final status, and then holds each one's final response in order |
| Grading.CollectStops | djangoApp/code_submission/helpers.py:26-27 | once a test case fails to finish, every longer prefix stops the same way |
| Grading.Grade | djangoApp/code_submission/helpers.py:11-54 | a report has one record per test case, `total_count` equal to the number of test cases and a passed count no larger; the only error is the 400 token error |
| Grading.GradeReport | djangoApp/code_submission/helpers.py:11-54 | grading yields a report exactly when every test case finished. The report has one record per test case in order, `total_count` equal to the number of test cases and `passed_count` equal to the number of passing records. Any other outcome is the 400 token error or the endless poll |
| Grading.SubmitAndTestCode | djangoApp/code_submission/helpers.py:11-54 | the method computes `Grade` and submits the test cases in order, each with its own stdin. After a stop it submits nothing more, and every earlier test case had finished |
| Grading.StoppedAt | djangoApp/code_submission/helpers.py:26-27 | a test case without a final response decides the whole outcome: a missing token gives the 400 answer |
| Notifications.Unread | djangoApp/notifications/views.py:15 | the listing of the first n rows has at most n items, each an unread one with an id among those rows |
| Notifications.UnreadSound | djangoApp/notifications/views.py:13-16 | every listed item is an unread notification of the caller, shown with its own id and message |
| Notifications.UnreadComplete | djangoApp/notifications/views.py:13-16 | every unread notification of the caller is listed |
| Notifications.UnreadOrdered | djangoApp/notifications/views.py:13-16 | the model lists in id order; the query sets no order, so this order is the model's own choice (see "## Left out") |
| Notifications.MarkRead | djangoApp/notifications/views.py:19-24 | marking changes at most the owned row, and only its read flag; a foreign or missing id changes nothing |
| Notifications.MarkReadIdempotent | djangoApp/notifications/views.py:19-24 | marking twice is marking once |
| Notifications.MarkedNotListed | djangoApp/notifications/views.py:13-24 | a marked notification leaves the caller's listing and every other listed item stays |
| Notifications.MarkReadKeepsOthers | djangoApp/notifications/views.py:19-24 | another user's listing is unaffected by a mark |
| Notifications.Inbox.Create | djangoApp/posts/signals.py:12 | creating appends one unread row owned by the user and returns its id |
| Notifications.Inbox.MarkAsRead | djangoApp/notifications/views.py:19-24 | the new table is `MarkRead` of the old one; the reply is success when the caller owns the notification and 404 otherwise |
| Notifications.Inbox.ListNotifications | djangoApp/notifications/views.py:13-16 | every listed item is an unread notification the caller owns, under its own id and with its message, and every such notification is listed |
| Posts.View | djangoApp/posts/views.py:45-56 | the answer carries the post's id and author, the two counts, and whether the caller likes or dislikes the post |
| Posts.Like | djangoApp/posts/views.py:37-43 | the caller leaves the dislikes and is toggled in the likes; no other user and no other field changes |
| Posts.Dislike | djangoApp/posts/views.py:64-70 | the mirror image of `Like` |
| Posts.ReactionsExclusive | djangoApp/posts/views.py:37-70 | after either toggle the caller is in at most one set, and disjoint sets stay disjoint |
| Posts.LikeTwice | djangoApp/posts/views.py:37-43 | liking twice restores the likes and leaves the caller out of the dislikes |
| Posts.Sent | djangoApp/posts/schemas.py:12-18 | the serialized answer keeps the post's id, title, content and author id, and nothing of the counts or flags |
| Posts.LikeNotSent | djangoApp/posts/views.py:45-56 | as serialized by the response schema, the answer to a like is the same whether the toggle added or removed the caller, although the computed view differs |
| Posts.ListedLikeNotSent | djangoApp/posts/views.py:86-101 | as serialized, the listing after the caller likes an accepted post is the same as before, although that post's computed view differs |
| Posts.StatusMessage | djangoApp/posts/signals.py:10-15 | there is a message exactly for an accepted or rejected post, and it names the post's title |
| Posts.SaveNotes | djangoApp/posts/signals.py:8-15 | a save inserts one unread notification for the author carrying the status message exactly when the post is accepted or rejected |
| Posts.PostStatusUpdate | djangoApp/posts/signals.py:8-15 | the receiver appends exactly `SaveNotes` of the saved post |
| Posts.SetStatusFirstAt | djangoApp/posts/admin.py:13-16 | after n steps of an action, a post among the first n selected has the new status and nothing else changed; other posts are unchanged |
| Posts.SetStatus | djangoApp/posts/admin.py:13-24 | an action sets the status of exactly the selected posts and changes nothing else |
| Posts.LastActionWins | djangoApp/posts/admin.py:13-24 | of two actions on the same selection, the later decides |
| Posts.ActionIdempotent | djangoApp/posts/admin.py:13-24 | repeating an action leaves the table as after the first |
| Posts.ActionNotesFirstLength | djangoApp/posts/admin.py:14-16 | each step of an accept or reject action adds one notification |
| Posts.ActionNoteAt | djangoApp/posts/admin.py:14-16 | the i-th notification of an action is for the author of the i-th selected post and carries its title |
| Posts.ModerationStep | djangoApp/posts/admin.py:14-16 | step i + 1 saves the i-th selected post with the new status and adds that save's notifications |
| Posts.ActionNotes | djangoApp/posts/admin.py:13-24 | an accept or reject action on n posts inserts n notifications, the i-th for the author of the i-th selected post with its title |
| Posts.PostTable.CreatePost | djangoApp/posts/views.py:13-29 | a new pending post with no reactions under a fresh id; no notification; answer 201 with the post's fields |
| Posts.PostTable.LikePost | djangoApp/posts/views.py:32-56 | 404 for an unknown post and nothing changes; otherwise only that post changes, by `Like`, and the answer is its view |
| Posts.PostTable.DislikePost | djangoApp/posts/views.py:59-83 | 404 for an unknown post; otherwise only that post changes, by `Dislike` |
| Posts.PostTable.AcceptPosts | djangoApp/posts/admin.py:13-16 | the table becomes `SetStatus(.., Accepted)` and the inbox gains `ActionNotes` |
| Posts.PostTable.RejectPosts | djangoApp/posts/admin.py:21-24 | the same with Rejected |
| Posts.PostTable.SetStatusAndSave | djangoApp/posts/admin.py:15-16 | the selected post takes the new status and nothing else in the table changes; the inbox gains exactly that save's notifications |
| Posts.PostTable.ModerateNext | djangoApp/posts/admin.py:14-16 | from the state after i steps of an action, one more set-and-save gives the state after i + 1 steps |
| Posts.PostTable.Moderate | djangoApp/posts/admin.py:14-16 | the loop saves each selected post in order with the new status, and the inbox gains each save's notifications; the table and the inbox end as `SetStatusFirst` and `ActionNotesFirst` after all the steps |
| Posts.PostTable.ListPosts | djangoApp/posts/views.py:86-101 | a post is listed exactly when it is accepted, under its own id and with the view the caller sees |
| Posts.AcceptedViews | djangoApp/posts/views.py:86-101 | listed items are exactly the views of accepted posts |
| Posts.ListedIffAccepted | djangoApp/posts/views.py:86-101 | a post is listed exactly when it is accepted, with its own view |
| Posts.NewPostNotListed | djangoApp/posts/views.py:86-88 | a freshly created post is not listed |
| Problems.ValidateDifficulty | djangoApp/problems/schemas.py:46-51 | the value is accepted exactly when it is easy, medium or hard; otherwise the error names the list |
| Problems.ValidateGrade | djangoApp/problems/schemas.py:53-58 | the grade is accepted exactly when it is 9 to 12; otherwise the error names the list |
| Problems.ValidateCategory | djangoApp/problems/schemas.py:60-70 | the category is accepted exactly when it is one of the 18; otherwise the error names the list |
| Problems.DifficultyListText | djangoApp/problems/schemas.py:48-50 | the list prints as `['easy', 'medium', 'hard']` |
| Problems.DifficultyErrorText | djangoApp/problems/schemas.py:46-51 | an unknown difficulty gets `difficulty must be one of ['easy', 'medium', 'hard']` |
| Problems.DifficultiesMatchChoices | djangoApp/problems/schemas.py:48 | the accepted difficulties are exactly the model's stored choice values |
| Problems.GradesMatchChoices | djangoApp/problems/schemas.py:55 | the accepted grades are exactly the model's stored choice values |
| Problems.CategoriesMatchChoices | djangoApp/problems/schemas.py:62-67 | the accepted categories are exactly the model's stored choice values |
| Problems.PayloadErrors | djangoApp/problems/schemas.py:46-70 | a payload is refused exactly when some validated field is invalid. There is exactly one error per invalid field and none for a valid one |
| Problems.PayloadErrorTexts | djangoApp/problems/schemas.py:46-70 | each invalid field's error is its validator's message at its place in field order: the difficulty error first, the grade error after it, the category error last |
| Problems.FormatDatetime | djangoApp/problems/schemas.py:23-27 | a datetime becomes its ISO text; anything else is unchanged |
| Problems.FormatCreatedBy | djangoApp/problems/schemas.py:29-33 | a user becomes its username; anything else is unchanged |
| Problems.StatusMessage | djangoApp/problems/signals.py:11-16 | there is a message exactly for an accepted or rejected problem, and it names the problem's title |
| Problems.SaveNotes | djangoApp/problems/signals.py:8-16 | a save inserts one unread notification for the creator exactly when the problem is accepted or rejected |
| Problems.PostStatusUpdate | djangoApp/problems/signals.py:8-16 | the receiver appends exactly `SaveNotes` of the saved problem |
| Problems.SetStatusFirstAt | djangoApp/problems/admin.py:13-16 | after n steps, a problem among the first n selected has the new status and nothing else changed |
| Problems.SetStatus | djangoApp/problems/admin.py:13-24 | an action sets the status of exactly the selected problems and changes nothing else |
| Problems.LastActionWins | djangoApp/problems/admin.py:13-24 | of two actions on the same selection, the later decides |
| Problems.ActionIdempotent | djangoApp/problems/admin.py:13-24 | repeating an action changes nothing more |
| Problems.ActionNotesFirstLength | djangoApp/problems/admin.py:14-16 | each step of an action adds one notification |
| Problems.ActionNoteAt | djangoApp/problems/admin.py:14-16 | the i-th notification is for the creator of the i-th selected problem and carries its title |
| Problems.ModerationStep | djangoApp/problems/admin.py:14-16 | step i + 1 saves the i-th selected problem with the new status and adds that save's notifications |
| Problems.ActionNotes | djangoApp/problems/admin.py:13-24 | an accept or reject action on n problems inserts n notifications, the i-th for the creator of the i-th selected problem with its title |
| Problems.ProblemOutOf | djangoApp/problems/views.py:39 | the answer body carries the row's fields, the ISO texts of the two timestamps and the creator's username, through the schema's formatters |
| Problems.ProblemTable.CreateProblem | djangoApp/problems/views.py:25-39 | a refused payload changes nothing and is answered with its errors. Otherwise a pending problem with the given fields goes under a fresh id, nobody is notified, and the answer is the new problem as the schema shows it |
| Problems.ProblemTable.AcceptProblems | djangoApp/problems/admin.py:13-16 | the table becomes `SetStatus(.., Accepted)` and the inbox gains `ActionNotes` |
| Problems.ProblemTable.RejectProblems | djangoApp/problems/admin.py:21-24 | the same with Rejected |
| Problems.ProblemTable.SetStatusAndSave | djangoApp/problems/admin.py:15-16 | the selected problem takes the new status and nothing else in the table changes; the inbox gains exactly that save's notifications |
| Problems.ProblemTable.ModerateNext | djangoApp/problems/admin.py:14-16 | from the state after i steps of an action, one more set-and-save gives the state after i + 1 steps |
| Problems.ProblemTable.Moderate | djangoApp/problems/admin.py:14-16 | the loop saves each selected problem in order with the new status; the table and the inbox end as `SetStatusFirst` and `ActionNotesFirst` after all the steps |
| Homeworks.GetHomework | djangoApp/homeworks/views.py:34-52 | 404 exactly for an unknown homework; success exactly when the caller teaches or belongs to the class, with the homework's fields, its class's name and its problem's title; otherwise the 400 text |
| Homeworks.ClassHomeworks | djangoApp/homeworks/views.py:74-75 | exactly the homeworks of the class |
| Homeworks.GetClassHomeworks | djangoApp/homeworks/views.py:65-75 | 404 exactly for an unknown class; success exactly for its teacher or members |
| Homeworks.MemberHomeworks | djangoApp/homeworks/views.py:86-101 | exactly the homeworks for the problem in classes the user is a member of |
| Homeworks.GetUserHomeworksForProblem | djangoApp/homeworks/views.py:78-103 | 400 exactly when the caller asks about another user; never 404 |
| Homeworks.Submissions | djangoApp/homeworks/views.py:115-117 | exactly the solutions for the homework's problem linked to the homework |
| Homeworks.GetHomeworkSubmissions | djangoApp/homeworks/views.py:106-117 | 404 exactly for an unknown homework; success exactly for the class's teacher or members |
| Homeworks.Unlink | djangoApp/solutions/migrations/0002_solution_homework.py:18 | after deletion no solution points at the homework; other links and all other fields are kept |
| Homeworks.School.CreateHomework | djangoApp/homeworks/views.py:19-31 | the lookups run in order: class (404), then teacher (400), then problem (404). On success exactly one homework is added under a fresh id |
| Homeworks.School.DeleteHomework | djangoApp/homeworks/views.py:55-62 | 404 or the 400 text change nothing; otherwise exactly that homework is removed, its solutions are unlinked, and the answer is 204 |
| Homeworks.CreatedIsVisible | djangoApp/homeworks/views.py:19-52 | a created homework reads back with its fields for the teacher and members, and is listed for its class |
| Homeworks.DeletedIsGone | djangoApp/homeworks/views.py:34-62 | after deletion the homework and its submissions are 404, no solution points at it, and other homeworks read as before |
| Homeworks.TeacherAloneSeesNothing | djangoApp/homeworks/views.py:86-89 | a teacher who is not a member of the class does not get its homework from the per-user listing |
| Cookies.Find | svelteApp/src/lib/utils.ts:3 | the position found is the leftmost occurrence of the separator from the start position on |
| Cookies.SplitFrom | svelteApp/src/lib/utils.ts:3 | a split has at least one piece, and the first piece starts the text being split |
| Cookies.SplitFromFree | svelteApp/src/lib/utils.ts:3 | no piece of a split contains the separator |
| Cookies.Split | svelteApp/src/lib/utils.ts:3 | a split has at least one piece and none contains the separator |
| Cookies.JoinSplit | svelteApp/src/lib/utils.ts:3 | joining the pieces of a split with the separator gives the string back |
| Cookies.UpToSemicolon | svelteApp/src/lib/utils.ts:4 | the value is the longest prefix without ';' |
| Cookies.GetCookie | svelteApp/src/lib/utils.ts:1-6 | a value found contains no ';' and starts the text right after an occurrence of `; name=` in the prefixed cookie string |
| Cookies.GetCookieOnce | svelteApp/src/lib/utils.ts:1-6 | with exactly one occurrence of `; name=`, the value is the text after it up to the next ';' |
| Cookies.GetCookieAbsent | svelteApp/src/lib/utils.ts:1-6 | without an occurrence the answer is null |
| Cookies.GetCookieRepeated | svelteApp/src/lib/utils.ts:4-5 | two non-overlapping occurrences make the answer null |
| Cookies.FirstCookieMatches | svelteApp/src/lib/utils.ts:2 | the first cookie is found thanks to the prepended "; " |
| Cookies.SuffixNameDoesNotMatch | svelteApp/src/lib/utils.ts:3 | a cookie whose name only ends with the wanted name does not match |
| Cookies.GetAuthHeaders | svelteApp/src/lib/utils.ts:8-18 | a missing or empty token throws "No access token found"; otherwise the header is "Bearer " and the token |
| Hooks.Gate | svelteApp/src/hooks.js:13-22 | a redirect to /login with 302 happens exactly for a protected path whose token fails the check |
| Hooks.PublicIgnoresAuth | svelteApp/src/hooks.js:15 | public paths do not consult the token check |
| Hooks.TrailingSlashIsProtected | svelteApp/src/hooks.js:13-15 | matching is exact: "/login/" is protected |
| Hooks.TokenStore.Handle | svelteApp/src/hooks.js:9-23 | the store holds the access cookie and the decision is `Gate` |

## Left out

- The judge's HTTP API is an oracle: the tokens it hands out and the poll answers are parameters. The URL, headers and JSON decoding are not modelled.
- Grading.PollUntilDone: the source polls without bound. The model's finite answer sequence turns a poll that never reaches a final status into the `PollsExhausted` outcome. It stands for a request that never returns.
- Grading.StatusId: a `status` key present with a null value makes the source raise; the model treats it like an absent key.
- Grading.Evaluate: a `stdout` key present with a null value makes `.strip()` raise in the source; the model only distinguishes present text from an absent key. The other text keys the record copies (`status.description`, `compile_output`, `stderr`, `message`) are modelled absent, null or text.
- The `print` debugging lines in `helpers.py` and in `problems/signals.py` are output only and are not modelled.
- The `message` locals in the admin actions are never used, so they are not modelled.
- Query results without an ordering (accepted posts, class homeworks, per-user homeworks, submissions) are modelled as sets, so list order and duplicates are not captured.
- Notifications.UnreadOrdered: the id order of the unread listing is the model's own choice. The query in djangoApp/notifications/views.py:15 has no `order_by`, and the Notification model, with any default ordering it declares, is not part of this model.
- `str(post.author)`, `created_at` and the problem's free-text fields (description, examples, solution code, timestamps) are left out of the rows and answers.
- The posts and notifications models are not part of this model. The like and dislike counts are taken to be the sizes of the two user sets.
- Problems.PayloadErrors: the validators' texts are modelled as the ValueError messages. The framework's wrapping into a 422 response body is not modelled.
- The homework due-date parsing and validation in the request schema is not modelled; the due date is carried as text. The model treats the submitted text and the stored date's `isoformat()` text as the same, so Homeworks.CreatedIsVisible reads back the submitted text; the source answers the ISO form of the parsed date, which can differ from it (a missing seconds field, a time-zone offset).
- Hooks.Gate: `isAuthenticated` (the token check in the client's auth module) is a parameter. The `console.log` line is not modelled.
- The other endpoints of the repository are not modelled: authentication, classes, issues, solutions, the code-submission views, problem listing and lookup, and test cases. They are outside the core.
- The admin selection is a sequence of existing ids. A selection listing an id twice is allowed and simply saves that row twice.
- Authentication of the caller (JWT) is taken as given: the caller's user id is a parameter.
- Problems.ProblemTable.CreateProblem: the creator's username and the two timestamps the database sets on insert are parameters; the free-text fields of `ProblemSchema` (description, example input and output) are left out of the answer as they are of the rows.

## Findings

| source | as written | input that shows it | evidently intended | confidence | as-written member | corrected member |
|---|---|---|---|---|---|---|
| djangoApp/posts/views.py:45-56 | `like_post` and `dislike_post` pass the counts and flags to `PostOutSchema`, which declares none of them (djangoApp/posts/schemas.py:12-18), so they are dropped | any post, liked by a user who did not like it before: the answer equals the one for the unliked post | the answer carries `likes_count`, `dislikes_count`, `is_liked` and `is_disliked` as the view computes them | medium, not executed | Posts.LikeNotSent | Posts.View |
| djangoApp/posts/views.py:90-101 | `list_posts` builds `PostOutSchema` items with the same four extra fields, so they are dropped from every listed post as well | an accepted post, liked by the caller: the listing equals the one before the like | each listed post carries `likes_count`, `dislikes_count`, `is_liked` and `is_disliked` as computed | medium, not executed | Posts.ListedLikeNotSent | Posts.PostTable.ListPosts |
