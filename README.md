# Translation revision store and PDF artifact paths

A Dafny model of two parts of a contest-task translation system.

**The editor views** are in `interp/views/translate.py` and live in module `Translate`, file `translate.dfy`.
- Each (user, task) pair has one translation.
- A translation keeps an append-only list of durable versions. Each confirmed save adds one.
- A translation also keeps autosave "particles". An autosave overwrites the newest particle, or creates the first one.
- A confirmed save deletes every particle of its translation.
- The text an editor sees is the newest particle's text, or else the text of the version added last.

The database tables are the `seq` fields of the class `Store`:
- `translations`, `versions` and `particles`;
- `nextParticleId`, the next particle id to hand out.

Each view that writes is a method on `Store` with `modifies` and a contract that states the whole new state. The read-only views are methods without `modifies` (`GetVersion`, `GetVersionParticle` and the two listings) or functions (`PreviewContext`, `PdfViewContext`). The contracts are given in terms of pure specification functions: `Lookup`, `LatestText`, `Autosave`, `DropParticlesOf`, `VersionIds` and `SortByDate`. Lemmas about those functions carry the properties the views are meant to have:
- the editor sees the last autosave;
- a confirmed save clears every particle of its translation;
- a translation holds at most one particle;
- particle ids stay unique;
- a comparison with surrounding whitespace ignored is indifferent to padding.

**The PDF helpers** are in `trans/utils/pdf.py` and live in module `Pdf`, file `pdf.dfy`. They are pure:
- the paths of the draft and final PDFs and of the final markdown, and the path the base PDF would have (see `Pdf.BasePdfPath` under "## Left out");
- Python's `str.split('/')`, used to take a file name out of a path;
- the choice of the text a PDF is rendered from;
- the form fields sent to the print service.

The lemmas about them show:
- when the contest slug, task name, task type and username contain no '/', each path splits into its expected pieces;
- when the task name and username contain no '/', the file name of every path comes back out of it;
- when the contest slug, task name and username contain no '/', released and in-progress drafts never share a path;
- for the same contest slug, task name and task type, two users never share a draft path;
- for the same contest slug, task name and username, the released and in-progress drafts differ, whatever characters the arguments hold;
- when the contest slug, task name and username contain no '/', no user's final PDF is the shared `ISC` one.

Values the program takes from its environment become parameters:
- the media root;
- the current time, `now`;
- the authenticated user, as a user id;
- a fresh particle id, drawn from `nextParticleId`.

## Model

| member | source | states |
|---|---|---|
| Translate.Strip | interp/views/translate.py:99 | `str.strip()`: the result is a slice of the input with only whitespace before and after it, and it neither starts nor ends with whitespace |
| Translate.SkipSpaces | interp/views/translate.py:99 | the scan from the left stops at the first non-whitespace character, or at the end, after only whitespace |
| Translate.SkipSpacesBack | interp/views/translate.py:99 | the scan from the right stops after the last non-whitespace character above the left bound, passing only whitespace |
| Translate.StripEmpty | interp/views/translate.py:99 | a text strips to the empty text exactly when it is all whitespace |
| Translate.StripPadFront | interp/views/translate.py:99 | leading whitespace padding does not change the stripped text |
| Translate.ScansPadFront | interp/views/translate.py:99 | with leading whitespace padding, the two scans select the same characters as without it |
| Translate.StripPadBack | interp/views/translate.py:99 | trailing whitespace padding does not change the stripped text |
| Translate.StripIgnoresPadding | interp/views/translate.py:99 | whitespace padding on either side does not change the stripped text, so the "Not Modified" comparison ignores it |
| Translate.StripIdempotent | interp/views/translate.py:99 | stripping twice is stripping once |
| Translate.Lookup | interp/views/translate.py:25 | a found translation belongs to the user and task asked for; when none is found, no row has that user and task |
| Translate.LookupIsOwned | interp/views/translate.py:41-43 | the translation found for a user is owned by that user, so the ownership guard of the save views never fires; nothing is found exactly when no row is (user, task, any language) |
| Translate.VersionIds | interp/views/translate.py:60 | the ids of a translation's versions: all of them, each one of that translation, in increasing order |
| Translate.LatestVersion | interp/views/translate.py:99 | the version of a translation added last (highest id, whatever its create time): it belongs to the translation and no later row does; none exactly when the translation has no version |
| Translate.Newest | interp/views/translate.py:101 | the particle `order_by('-date_time').first()` selects: one of the translation, with the greatest date among its particles; none exactly when it has no particle |
| Translate.FindParticle | interp/views/translate.py:83 | a found particle has the id asked for; none is found only if no particle has it |
| Translate.LatestText | interp/views/translate.py:99 | the text the editor sees: the newest particle's text if there is a particle, otherwise the text of the version added last, and nothing exactly when there is neither |
| Translate.ParticlesOf | interp/views/translate.py:61 | exactly the particles of the translation |
| Translate.ParticlesOfCount | interp/views/translate.py:61 | the filter keeps every particle of the translation as many times as the table holds it, and no other particle |
| Translate.DropParticlesOf | interp/views/translate.py:45 | exactly the particles of other translations |
| Translate.DropParticlesOfCount | interp/views/translate.py:45 | the delete keeps every particle of another translation as many times as the table holds it, and none of the translation |
| Translate.InsertByDate | interp/views/translate.py:61 | inserting into a date-sorted list keeps it sorted and adds exactly the one particle |
| Translate.SortByDate | interp/views/translate.py:61 | `order_by('date_time')`: sorted by date and a permutation of the input |
| Translate.Stamps | interp/views/translate.py:62-63 | the (id, date) pair of every particle, in order |
| Translate.Autosave | interp/views/translate.py:101-106 | with a particle present, the newest one gets the text and keeps its id, translation and date, and every other particle is unchanged; without one, the table is kept and a particle (fresh id, text, now) is appended |
| Translate.Direction | interp/views/translate.py:116 | "rtl" exactly for a right-to-left language, otherwise "ltr" |
| Translate.NewestIgnoresText | interp/views/translate.py:103-104 | rewriting particle texts in place does not change which particle is newest |
| Translate.AutosaveResolves | interp/views/translate.py:101-106 | after an autosave, the editor sees the autosaved text |
| Translate.NewVersionResolves | interp/views/translate.py:44-45 | once a translation has no particle, a new version's text is what the editor sees |
| Translate.NoVersionsNoIds | interp/views/translate.py:60 | a translation with no version lists no version id |
| Translate.SeedIsOnlyVersion | interp/views/translate.py:27-28 | seeding a translation that has no version gives it exactly one version |
| Translate.VersionIdsAppend | interp/views/translate.py:60 | appending a version adds its id to the listing exactly when it belongs to the translation |
| Translate.DropKeepsDistinct | interp/views/translate.py:45 | deleting a translation's particles keeps particle ids distinct and keeps at most one particle per translation |
| Translate.DropKeepsIds | interp/views/translate.py:45 | deleting a translation's particles keeps particle ids distinct |
| Translate.DropKeepsSingleSlot | interp/views/translate.py:45 | deleting a translation's particles keeps at most one particle per translation |
| Translate.DropBounds | interp/views/translate.py:45 | every particle left after the deletion keeps the bounds it had, and none belongs to the translation |
| Translate.SaveKeepsValid | interp/views/translate.py:44-45 | a confirmed save keeps the table invariants, leaves the translation without particles, and makes the saved text the one the editor sees |
| Translate.StampsOf | interp/views/translate.py:62-63 | the loop collecting (id, date) gives the stamps of the query result, in order |
| Translate.StampsSorted | interp/views/translate.py:61-63 | the stamps of a date-sorted list are in date order |
| Translate.AutosaveKeepsDistinct | interp/views/translate.py:101-106 | an autosave with a fresh id keeps particle ids distinct and at most one particle per translation |
| Translate.AutosaveTwice | interp/views/translate.py:101-106 | a second autosave overwrites the particle the first one created: the last text wins, and the first one's id and date are kept |
| Translate.Store.constructor | interp/views/translate.py:7 | an empty store of translations and particles over versions of other content, with the table invariants holding |
| Translate.Store.FindOrCreate | interp/views/translate.py:24-27 | finds the user's translation of the task, or appends one in the user's language; nothing else changes |
| Translate.Store.OpenTask | interp/views/translate.py:20-32 | opening a task finds the translation, or creates it seeded with the task's text as its one version; the editor text is the latest text (the seed for a new translation) |
| Translate.Store.SaveQuestion | interp/views/translate.py:35-46 | with no translation it fails and changes nothing; otherwise it appends a version with the content, deletes exactly the translation's particles, and afterwards the editor sees the content |
| Translate.Store.SaveVersionParticle | interp/views/translate.py:90-107 | "Not Modified" exactly when the stripped latest text equals the stripped content, changing nothing; otherwise the store is the Autosave of the content and the editor sees it; no translation or no text gives an error with nothing changed |
| Translate.Store.WriteParticle | interp/views/translate.py:101-106 | the particle table becomes the Autosave of the content; the id counter advances only when a particle is created |
| Translate.Store.GetVersion | interp/views/translate.py:70-77 | not found exactly for an unknown id; the text exactly when the version belongs to a translation the user owns; 400 otherwise |
| Translate.Store.GetVersionParticle | interp/views/translate.py:80-87 | not found exactly for an unknown id; the text exactly when the user owns the particle's translation; 403 otherwise |
| Translate.Store.ListVersionStamps | interp/views/translate.py:60-65 | (id, create time) of every version of the translation, in id order |
| Translate.Store.ListParticleStamps | interp/views/translate.py:61-63 | (id, date) of the translation's particles, sorted by date: the stamps of a date-sorted permutation of exactly those particles |
| Translate.Store.ListVersions | interp/views/translate.py:49-67 | finds or creates the translation without seeding it, changes nothing else, and returns both listings and the latest text |
| Translate.Store.PreviewContext | interp/views/translate.py:109-118 | a context exactly when the user has a translation of the task: the latest text, "rtl" exactly for a right-to-left language, and the title "task title-language" |
| Translate.Store.PdfViewContext | interp/views/translate.py:134-154 | no context for a missing task; otherwise the preview's context |
| Pdf.Split | trans/utils/pdf.py:100 | at least one piece, none containing a slash |
| Pdf.JoinSplit | trans/utils/pdf.py:100 | joining the pieces with '/' gives the input back |
| Pdf.SplitJoin | trans/utils/pdf.py:100 | splitting slash-free pieces joined with '/' gives the pieces back |
| Pdf.SplitNoSlash | trans/utils/pdf.py:100 | a slash-free text splits into itself alone |
| Pdf.SplitAtSlash | trans/utils/pdf.py:100 | splitting at a slash concatenates the splits of both sides |
| Pdf.JoinEndsWithLast | trans/utils/pdf.py:100 | a join ends with its last piece, preceded by a slash when there is more than one piece |
| Pdf.FileNameFromPath | trans/utils/pdf.py:99-100 | the file name is slash-free, ends the path, and follows a slash whenever it is shorter than the path |
| Pdf.FileNameAfterSlash | trans/utils/pdf.py:99-100 | the file name of "dir/name" is name, for a slash-free name |
| Pdf.OutputPdfPath | trans/utils/pdf.py:60-65 | the path starts with "media root/output/" and ends with "-username.pdf" |
| Pdf.ReleasedPdfPath | trans/utils/pdf.py:67-68 | an output path with task type "released" |
| Pdf.UnreleasedPdfPath | trans/utils/pdf.py:70-71 | an output path with task type "task" |
| Pdf.BasePdfPath | trans/utils/pdf.py:74-76 | an output path for the user `ISC` |
| Pdf.FinalPath | trans/utils/pdf.py:78-96 | a final path starts with "media root/final/kind/contest/" and ends with the extension |
| Pdf.FinalPdfPath | trans/utils/pdf.py:78-86 | the path starts with "media root/final/pdf/contest/" and ends with ".pdf" |
| Pdf.FinalMarkdownPath | trans/utils/pdf.py:88-96 | the path starts with "media root/final/markdown/contest/" and ends with ".md" |
| Pdf.OutputPdfPathShape | trans/utils/pdf.py:60-65 | for a slash-free contest slug, task name, task type and username, an output path splits into the media root's pieces, then output, contest, task, task type and "task-username.pdf" |
| Pdf.OutputDirShape | trans/utils/pdf.py:61 | for a slash-free contest slug, task name and task type, an output directory splits into the media root's pieces, then output, contest, task and task type |
| Pdf.OutputPdfFileName | trans/utils/pdf.py:60-65 | for a slash-free task name and username, the file name taken from an output path is "task-username.pdf" |
| Pdf.ReleasedNeverUnreleased | trans/utils/pdf.py:67-71 | for slash-free contest slugs, task names and usernames on both sides, no released draft path equals a draft path of a translation in progress |
| Pdf.OutputPdfPathPerUser | trans/utils/pdf.py:60-65 | for the same contest slug, task name and task type, different users get different output paths |
| Pdf.ReleasedDiffersFromUnreleased | trans/utils/pdf.py:67-71 | for the same contest slug, task name and username, the released draft path differs from the in-progress one, with no condition on the characters |
| Pdf.FinalDirShape | trans/utils/pdf.py:79-82 | for a slash-free kind and contest slug, a final directory splits into the media root's pieces, then final, kind and contest |
| Pdf.FinalPathShape | trans/utils/pdf.py:78-96 | for a slash-free kind, extension, contest slug, task name and username: for `ISC`, media root, final, kind, contest and "task.ext"; for anyone else a task directory and "task-username.ext" |
| Pdf.FinalPdfPathShape | trans/utils/pdf.py:78-86 | for a slash-free contest slug, task name and username: for `ISC`, media root, final, pdf, contest and "task.pdf"; for anyone else there is a task directory and "task-username.pdf" |
| Pdf.FinalMarkdownPathShape | trans/utils/pdf.py:88-96 | for a slash-free contest slug, task name and username, the same layout under final/markdown, with ".md" |
| Pdf.FinalFileName | trans/utils/pdf.py:78-96 | for a slash-free extension, task name and username, the file name of a final path is "task.ext" for `ISC` and "task-username.ext" for anyone else, whatever the directories |
| Pdf.FinalPdfFileName | trans/utils/pdf.py:78-86 | for a slash-free task name and username, the file name of a final PDF is "task.pdf" for `ISC` and "task-username.pdf" for anyone else |
| Pdf.FinalMarkdownFileName | trans/utils/pdf.py:88-96 | for a slash-free task name and username, the file name of a final markdown is "task.md" for `ISC` and "task-username.md" for anyone else |
| Pdf.FinalPdfNeverShared | trans/utils/pdf.py:78-86 | for slash-free contest slugs and task names on both sides and a slash-free username, no other user's final PDF path is the `ISC` one |
| Pdf.PdfContent | trans/utils/pdf.py:36-40 | the published text for the task type "released", otherwise the latest text of the requested user's translation |
| Pdf.PdfShowsAutosave | trans/utils/pdf.py:36-40 | after an autosave, a draft PDF renders the autosaved text; a released PDF still renders the published text |
| Pdf.PrintFormFields | trans/utils/pdf.py:148-158 | cover_page is sent as 1 exactly when a cover page is asked for and as 0 otherwise; the count and country fields go through unchanged |
| Pdf.DefaultPrintForm | trans/utils/pdf.py:148 | by default: no cover page (0) and one copy |

## Left out

- HTTP, templates and login: request parsing, rendering, `LoginRequiredMixin` and the `Home` listing are not modelled. Each view is the state change it makes and the values it passes to its template.
- The models module: `get_latest_text` and `add_version` are not part of this model. `Translate.LatestText` assumes their meaning:
  - the text is that of the newest particle, and the earlier particle wins a tie on date;
  - otherwise it is the text of the translation's version added last, the one with the highest id, whatever its create time;
  - otherwise there is none.

  `Translate.Store.OpenTask` and `Translate.Store.SaveQuestion` assume `add_version(text)` appends one version of the translation, holding that text, with the current time `now` as its create time.
- Versions of other content: a task's own versions are not modelled as such. They are only the `OfOther` rows of the version table.
- The task's own text: `Task.get_latest_text` is an input to `Translate.Store.OpenTask`.
- Task existence: `Task.objects.get` is not modelled, and tasks are given by id. A missing task, user or translation makes the ORM raise. That raise, and every other uncaught lookup, is the single outcome `NotFound`.
- A translation with no text at all: `SaveVersionParticle` would call `strip` on `None` and fail. `Translate.Store.SaveVersionParticle` returns `NotFound` for that case and changes nothing.
- The ownership guard in `SaveQuestion` and `SaveVersionParticle` that answers 403: the translation is looked up by the requesting user, so the guard can never fire. The model proves this with `Translate.LookupIsOwned` and an assertion, so the two methods have no 403 outcome.
- Time, ids and creation dates: `timezone.now()` and the database's automatic ids and creation dates are parameters.
- The view's language label: the `language`/`rtl` context of `Questions.get` is not modelled. The `str(language)` in preview and PDF titles is taken to be the language's name.
- Concurrency: requests and the atomicity of the ORM's writes are not modelled. Each method is one atomic step.
- `Translate.Store.ListVersions`: lists versions in id order, because the default ordering of `trans.versions.all()` is set in the models, which are not part of this model.
- `get_translation_by_contest_and_task_type` and the helpers `get_requested_user`, `get_task_by_contest_and_name` and `get_trans_by_user_and_task`: their bodies are not part of this model. `Pdf.PdfContent` takes the requested translation as its input.
- The other context fields of `render_pdf_template` are not modelled; only its choice of content is. These fields are contest, country, language, fonts and static paths.
- Filesystem and processes are not modelled:
  - `os.makedirs` in the path builders;
  - `pdf_response`;
  - `convert_html_to_pdf` and its headless browser;
  - `add_page_numbers_to_pdf` and `add_info_line_to_pdf`, which shell out to `cpdf`.
- The print service: the upload in `send_pdf_to_printer` is not modelled, and only the form fields are. That covers the `urljoin`, the POST and `raise_for_status`.
- `cmd_options` and `filename` in `GetTranslatePDF`: page layout only. The title is modelled.
- `Pdf.BasePdfPath`: as written, `base_pdf_path` raises `NameError` on every call, because `trans/utils/pdf.py` never imports `User`. With the import it would still raise `DoesNotExist` when there is no `ISC` user. The member gives the path the call would return once `User` is imported and an `ISC` user exists; neither error is modelled.
- The particle's date on overwrite: how `VersionParticle.date_time` is declared belongs to the models module, which is not part of this model. The model assumes it has no `auto_now`, so the `save()` after setting `text` keeps the particle's original date. `Translate.Autosave` keeps it, and `Translate.AutosaveTwice` rests on that assumption. With `auto_now`, the overwrite would refresh the date to the save time.
- `Translate.Store.PdfViewContext`: its `None` merges two cases. One is the view's `None` for a missing task. The other is the `DoesNotExist` that `Translation.objects.get` raises when the user has no translation. The `trans is None` check after that lookup can never fire, so it has no outcome of its own.
- `Pdf.OutputPdfPath`: any media root is allowed. The shape lemmas split it with `Split` rather than assuming anything about it.

## Intended behaviour and the code

The model follows the code in each case:
- Seeding: the intended behaviour is that opening a task seeds a new translation with the task's text. That holds for `Questions.get`. `Versions.get` creates a translation without a seed version, and `Translate.Store.ListVersions` models it that way.
- Save by a non-owner: the intended behaviour is that saves by a non-owner are rejected with 403. In the code, a user can only reach their own translation, and a missing one makes the lookup raise.
