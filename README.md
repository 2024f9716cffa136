# Talaat Architects portfolio: content pipeline and front-end state

This project models, in Dafny, the parts of the Talaat Architects portfolio site
that decide what is published and how it is browsed:

- **The content processor** (`scripts/process-content.js`, class `ContentProcessor`).
  It walks the `3_RESIDENTIAL` category directory and then the `6_UNBUILT (ARCHIVE)` one.
  For every project directory it derives a slug and a fallback title from the
  directory name, reads the front matter of the first markdown file, converts
  every qualifying image, and pushes one record onto its `projects` list.
  That list is finally written to `projects.json`.
- **The project hero slideshow** (`src/components/ProjectHero.tsx`): the index of
  the image on show, the previous/next buttons, the six-second auto-advance and the
  image-source fallback.
- **The navigation menu** (`src/components/Navigation.tsx`): the `isMenuOpen` flag,
  the clicks that flip or clear it, and the keyboard handler that moves focus between
  the four menu items.
- **The projects page** (`src/app/projects/page.tsx`): the category filter and the
  derivation of the category buttons.

## How the model is laid out

| file | module | contents |
|---|---|---|
| `wrappers.dfy` | `Wrappers` | `Option` |
| `text.dfy` | `Text` | JavaScript string operations used by the processor: `toLowerCase`, `\s`, the `replace` patterns as filters and run-squashers, `trim`, `includes`, `lastIndexOf` |
| `node_path.dfy` | `NodePath` | Node's `path.extname` and `path.basename(name, ext)` / `path.parse(name).name` |
| `naming.dfy` | `Naming` | `generateSlug`, `formatProjectName`, `sanitizeFileName` |
| `manifest.dfy` | `Manifest` | the records written to `projects.json` |
| `seqs.dfy` | `Seqs` | first-index search (`find`, `findIndex`, early-exit loops), first occurrence |
| `modular.dfy` | `Modular` | the remainder facts behind wrap-around indices |
| `content_processor.dfy` | `ContentProcessing` | the file-system inputs, the specification functions, and the `ContentProcessor` class with its `projects` field and its loops |
| `content_properties.dfy` | `ContentProperties` | what the processor guarantees |
| `project_hero.dfy` | `ProjectHero` | the slideshow's `Gallery` class |
| `navigation.dfy` | `Navigation` | the menu state machine and the `Menu` class |
| `projects_page.dfy` | `ProjectsPage` | the filter, the category list and the `Page` class |
| `pipeline.dfy` | `Pipeline` | the page's category buttons for a manifest written by the processor |

### Inputs

The file system, the markdown parser and the image encoder are inputs to the model.

- A category directory is `Missing`, `Unlistable` (it exists but `readdir` throws), or `Listed` with its children.
- Each child is a project directory, another entry, or an entry whose `fs.stat` throws.
- A project directory is given by:
  - its listing (`None` when `readdir` throws), with what `stat` says of each entry;
  - the front matter of each markdown file that can be read and parsed;
  - the set of file names on which the encoder throws.
- The current year is a parameter.

The processor's methods are proved against specification functions:

- `ProcessedImages` for `processProjectImages`;
- `ProjectRecord` for `processProject`;
- `CategoryPass` for the category walkers;
- `Run` for `processContent`.

The properties are proved about those functions.

### Behaviour of the code worth knowing

- **Image output.**
  - Each qualifying image gets one JPEG and one JPEG thumbnail (scripts/process-content.js:132-142). No other format is written.
  - Every image is re-encoded on every run: nothing is cached and there is no force flag (scripts/process-content.js:130-142).
  - An image entry has exactly `src`, `thumbnail` and `alt` (scripts/process-content.js:144-148). It has no width or height.
  - Only names containing `archive`, in any case, are skipped (scripts/process-content.js:125). `thumb_`-prefixed source files qualify like any other.
- **Projects are never dropped.** A project directory with no qualifying image still gets a record, with `images == []` and `thumbnail == null` (scripts/process-content.js:94-109).
- **Which failures end what.**
  - A `stat` that throws inside a category walk rejects the whole run (scripts/process-content.js:45, :65). So does a markdown file that cannot be read or parsed (:88-89). The rejection reaches the top-level `catch` (:206), so `projects.json` is not written (:28).
  - A `sharp` encoder failure is caught for that file alone (scripts/process-content.js:130-152). The loop goes on with the next file.
  - A `readdir` or `stat` that throws inside `processProjectImages` (scripts/process-content.js:117, :121) is caught at :155. That ends the project's image loop, and the images converted before it are kept.
- **Image shape.** `ProjectHero` reads `src.jpeg`, an object field (src/components/ProjectHero.tsx:8-22). The processor writes `src` as a flat string (scripts/process-content.js:144-148). Each half is modelled with its own record shape.

## Model

| member | source | states |
|---|---|---|
| Naming.SlugWellFormed | scripts/process-content.js:172-179 | every slug holds only `[a-z0-9-]` and never two hyphens in a row |
| Naming.TrimCollapsed | scripts/process-content.js:172-179 | the closing `trim` never removes anything, since whitespace has already become `-` |
| Naming.SlugFixpoint | scripts/process-content.js:172-179 | a well-formed slug is its own slug |
| Naming.SlugIdempotent | scripts/process-content.js:172-179 | slugging a slug changes nothing |
| Naming.SlugKeepsLettersAndDigits | scripts/process-content.js:172-179 | the slug keeps exactly the ASCII letters and digits of the lower-cased name, in order |
| Naming.SlugKeepsOuterHyphens | scripts/process-content.js:172-179 | a leading or trailing space survives as a hyphen (`" A "` becomes `"-a-"`) |
| Naming.SlugsCollide | scripts/process-content.js:172-179 | two different directory names can share a slug (`"A B"` and `"a-b"`) |
| Naming.Split | scripts/process-content.js:183 | `split` yields at least one piece, no piece holds the separator, and joining the pieces gives the input back |
| Naming.Capitalize | scripts/process-content.js:184 | the first character is upper-cased and the rest lower-cased, length kept |
| Naming.CapitalizeAll | scripts/process-content.js:184 | each piece is capitalised, in order |
| Naming.TitleCaseAt | scripts/process-content.js:182-185 | the title-cased name has the same length as the name, and each character is `_` turned into a space, or upper-cased at a word start, or lower-cased |
| Naming.LeadingNumberLength | scripts/process-content.js:186 | the length cut satisfies `IsLeadingNumberCut`: a leading run of digits, at most one `_`, then whitespace, each taken as far as it goes (after the first non-digit only whitespace is cut; the cut stops at the first character none of the three parts can take); nothing when the input does not start with a digit |
| Naming.LeadingNumberCutUnique | scripts/process-content.js:186 | that shape admits one cut length at most, so it determines exactly what the `replace` removes |
| Naming.DigitsThenSpacesCut | scripts/process-content.js:186 | digits followed by whitespace are stripped from any text neither run could extend, and nothing of that text is stripped |
| Naming.TitleSuffix | scripts/process-content.js:181-187 | every tail of the title-cased name agrees with it character for character and holds no `_` |
| Naming.FormatProjectNameTail | scripts/process-content.js:181-187 | the fallback title is a tail of the title-cased name and holds no `_` |
| Naming.FormatProjectNameCut | scripts/process-content.js:181-187 | what is cut from the title-cased name is its leading number, read on the name through `TitleChar`: digits, then whitespace (every `_` has become a space), each as far as it goes; nothing unless the name starts with a digit |
| Naming.FormatProjectNameSpec | scripts/process-content.js:181-187 | the fallback title is the title-cased name minus exactly that leading number, and holds no `_` |
| Naming.TitleCaseFixed | scripts/process-content.js:182-185 | a name without `_` or capitals whose first character is no lower-case letter is its own title case |
| Naming.FormatProjectNameDropsNumber | scripts/process-content.js:181-187 | `"12 ab"` becomes `"ab"` |
| Naming.FormatProjectNameKeepsSecondNumber | scripts/process-content.js:181-187 | `"1 2ab"` becomes `"2ab"`: only the first number is cut |
| Naming.SanitizeStemSafe | scripts/process-content.js:192 | a sanitized stem holds only `[A-Za-z0-9_-]` and never `__` |
| Naming.SanitizeStemKeepsContent | scripts/process-content.js:192 | sanitizing keeps the stem's letters, digits and hyphens, in order |
| Naming.SanitizeFileNameShape | scripts/process-content.js:189-194 | the output name is a safe stem plus `.jpg`; the stem is empty only for the empty name |
| Naming.SanitizeIdempotent | scripts/process-content.js:189-194 | sanitizing an output name again changes nothing, for every non-empty name |
| Naming.SanitizeDotFile | scripts/process-content.js:190-193 | `.jpg` has no extension to Node, so its output name is `_jpg.jpg` |
| Naming.SanitizeEmptyNotIdempotent | scripts/process-content.js:189-194 | the empty name gives `.jpg`, which sanitizes again to `_jpg.jpg` |
| NodePath.StemAndExtension | scripts/process-content.js:190-191 | a name is its stem followed by its extension, and the stem is empty only for the empty name |
| NodePath.ExtNameShape | scripts/process-content.js:123 | an extension is empty or a dot followed by no other dot |
| NodePath.StemOfJoined | scripts/process-content.js:190-191 | a dot-free stem and a one-dot extension are split back apart |
| ContentProcessing.OutputDirName | scripts/process-content.js:145 | the directory part of every image path is the slug, or `projects` when the slug is empty |
| ContentProcessing.OrElse | scripts/process-content.js:99-103 | a missing or empty front-matter string falls back |
| ContentProcessing.YearOr | scripts/process-content.js:102 | a missing year or the year 0 falls back to the current year |
| ContentProcessing.ProjectRecord | scripts/process-content.js:84-107 | a record is built exactly when the markdown file (if any) can be read and parsed |
| ContentProcessing.ContentProcessor.constructor | scripts/process-content.js:7-12 | the accumulator starts empty |
| ContentProcessing.ContentProcessor.ProcessProjectImages | scripts/process-content.js:112-160 | the loop returns the images of the qualifying entries that convert, up to the first `stat` that throws |
| ContentProcessing.ContentProcessor.ProcessProject | scripts/process-content.js:73-110 | it pushes the project's record, or rejects and pushes nothing |
| ContentProcessing.ContentProcessor.VisitChild | scripts/process-content.js:44-49 | one child is stat-ed, and a project directory is processed; a `stat` throw rejects |
| ContentProcessing.ContentProcessor.ProcessCategory | scripts/process-content.js:33-51 | a missing directory adds nothing, an unreadable one rejects, and otherwise the children's records are appended in listing order up to the first rejection (this also covers `processUnbuiltProjects`, :53-71) |
| ContentProcessing.ContentProcessor.GenerateProjectsData | scripts/process-content.js:196-200 | the manifest written is the accumulated list |
| ContentProcessing.ContentProcessor.ProcessContent | scripts/process-content.js:14-31 | `projects` grows by the run's records, and `projects.json` is written only when the run completes |
| ContentProperties.ArchiveIgnoresCase | scripts/process-content.js:125 | the `archive` exclusion ignores case |
| ContentProperties.DotFileIsNotAnImage | scripts/process-content.js:123 | a file named `.jpg` is not an image |
| ContentProperties.UpperCaseExtensionQualifies | scripts/process-content.js:123 | `A.JPG` qualifies: extensions are compared after lower-casing |
| ContentProperties.ImagesOfAppend | scripts/process-content.js:119-154 | the images of a listing are the images of its two halves, in order |
| ContentProperties.QualifyingCount | scripts/process-content.js:123-125 | no more entries qualify than there are |
| ContentProperties.ImagesBound | scripts/process-content.js:123-148 | there is at most one image per qualifying entry, and exactly one each when the encoder never throws |
| ContentProperties.ImagesOfFailing | scripts/process-content.js:130-152 | a file the encoder throws on adds no image |
| ContentProperties.FailureIsolated | scripts/process-content.js:130-152 | a failing file does not affect the images of the files before or after it |
| ContentProperties.SafeJpgName | scripts/process-content.js:189-193 | the sanitised output name is made of safe characters and ends in `.jpg` |
| ContentProperties.ImageEntryPaths | scripts/process-content.js:144-148 | `src` is under `/projects/<dir>/` and ends in `.jpg` with a safe name; the thumbnail is the same name with a `thumb_` prefix; alt is `<dir> - <stem>` |
| ContentProperties.StatFailureStops | scripts/process-content.js:116-157 | the first `stat` that throws ends the loop, keeping the images before it |
| ContentProperties.FindMarkdownFirst | scripts/process-content.js:162-170 | the markdown file is the first `.md` entry in any case, and none is found only when no entry qualifies or the directory cannot be listed |
| ContentProperties.ProjectRecordSpec | scripts/process-content.js:97-107 | id and slug are the well-formed slug; the category is the walk's; the images are the processed ones; the thumbnail is the first image, or null exactly when there are none |
| ContentProperties.NoMarkdownDefaults | scripts/process-content.js:85-103 | without a markdown file: the title is the formatted directory name (no `_`), description and location are empty, and the year is the current year |
| ContentProperties.FolderNames | scripts/process-content.js:47 | the project directories are at most the children |
| ContentProperties.PushedByChild | scripts/process-content.js:44-49 | a project directory pushes one record with its slug and the category; any other entry pushes none |
| ContentProperties.OneRecordPerFolder | scripts/process-content.js:43-50 | with no rejection, the walk pushes exactly one record per project directory (including those with zero images), in listing order |
| ContentProperties.RecordsLabelled | scripts/process-content.js:48 | every record pushed by a walk carries the walk's category |
| ContentProperties.WalkLabelled | scripts/process-content.js:48 | every record of a category pass carries the pass's category |
| ContentProperties.CompletedWalkCoversAll | scripts/process-content.js:41-50 | a completed walk pushed one record per project directory, in order |
| ContentProperties.ConcatLabelled | scripts/process-content.js:21-25 | records of one category followed by records of another form two runs split at the first part's length |
| ContentProperties.RunLabels | scripts/process-content.js:21-25 | the records of a run are the residential pass's records labelled `residential` followed only by records labelled `unbuilt` |
| ContentProperties.RunShape | scripts/process-content.js:21-25 | the residential pass's records start the run; a rejection in the residential walk ends it; a missing residential directory leaves only the unbuilt pass |
| ContentProperties.RunOrder | scripts/process-content.js:21-25 | residential records come first and unbuilt ones after; a rejection in the residential walk ends the run; a missing residential directory leaves only the unbuilt walk |
| ProjectHero.NextIndex | src/components/ProjectHero.tsx:48-50 | the next index is in range; it is one more, or 0 after the last |
| ProjectHero.PrevIndex | src/components/ProjectHero.tsx:44-46 | the previous index is in range; it is one less, or the last before 0 |
| ProjectHero.PrevUndoesNext | src/components/ProjectHero.tsx:44-50 | previous and next undo each other |
| ProjectHero.Advance | src/components/ProjectHero.tsx:53-61 | after any number of ticks the index is in range |
| ProjectHero.AdvanceIsModular | src/components/ProjectHero.tsx:53-61 | `k` ticks from index `i` show image `(i + k) % n` |
| ProjectHero.FullCycle | src/components/ProjectHero.tsx:53-61 | one tick per image returns to the starting image |
| ProjectHero.Gallery.constructor | src/components/ProjectHero.tsx:41 | the index starts at 0 |
| ProjectHero.Gallery.Counter | src/components/ProjectHero.tsx:167-187 | the counter and controls appear exactly when there is more than one image, and the counter shows the index plus one, of the number of images |
| ProjectHero.Gallery.GoToNext | src/components/ProjectHero.tsx:48-50 | the next button sets the index to the next index and keeps it on an image |
| ProjectHero.Gallery.GoToPrevious | src/components/ProjectHero.tsx:44-46 | the previous button sets the index to the previous index and keeps it on an image |
| ProjectHero.Gallery.Tick | src/components/ProjectHero.tsx:53-61 | a tick steps like the next button when there is more than one image, and does nothing otherwise |
| ProjectHero.Gallery.Rerender | src/components/ProjectHero.tsx:33-41 | new `title` and `images` props replace the old ones, and the index state survives |
| ProjectHero.Gallery.DisplayedSrc | src/components/ProjectHero.tsx:82 | the current image's JPEG, or the first image's when the current one is missing or empty, and nothing without images |
| ProjectHero.Gallery.DisplayedAlt | src/components/ProjectHero.tsx:83 | the current image's alt, or `<title> project image` |
| Navigation.CurrentIndex | src/components/Navigation.tsx:36-38 | the focused item's index, or -1 when focus is not on an item |
| Navigation.ArrowDownTarget | src/components/Navigation.tsx:42 | ArrowDown's target is an item index |
| Navigation.ArrowUpTarget | src/components/Navigation.tsx:44 | ArrowUp's target is an item index |
| Navigation.ArrowsWrapAround | src/components/Navigation.tsx:41-45 | from an item, ArrowDown goes to `(i+1) % n` and ArrowUp to `(i+n-1) % n` |
| Navigation.ArrowsFromNowhere | src/components/Navigation.tsx:36-45 | with no item focused, ArrowDown goes to the first item and ArrowUp to the last |
| Navigation.KeyStep | src/components/Navigation.tsx:21-59 | a closed menu ignores keys; Escape closes and focuses the button; the arrows focus an item in range; Home focuses the first item and End the last; other keys change nothing; focus stays consistent with the open flag |
| Navigation.ClosedIgnoresKeys | src/components/Navigation.tsx:22 | any sequence of keys leaves a closed menu unchanged |
| Navigation.Downs | src/components/Navigation.tsx:41-42 | a run of `k` ArrowDown presses |
| Navigation.DownStepsModular | src/components/Navigation.tsx:41-47 | `k` steps of ArrowDown's target from item `i` reach item `(i+k) % 4` |
| Navigation.DownsFollowSteps | src/components/Navigation.tsx:41-47 | `k` ArrowDown presses on the open menu from item `i` keep it open and focus the item `k` steps on |
| Navigation.DownRoundTrip | src/components/Navigation.tsx:41-47 | four ArrowDown presses return to the starting item |
| Navigation.ArrowsUndoEachOther | src/components/Navigation.tsx:41-47 | ArrowUp undoes ArrowDown and the other way round |
| Navigation.Toggle | src/components/Navigation.tsx:93 | the toggle flips the flag, and closing drops focus from the items |
| Navigation.Close | src/components/Navigation.tsx:146 | an item or overlay click (:174) closes the menu |
| Navigation.MouseDown | src/components/Navigation.tsx:66-76 | a mousedown closes exactly when the menu is open and the press is outside both the menu and the button; otherwise nothing changes |
| Navigation.ClickSequences | src/components/Navigation.tsx:66-93 | a full click on the button flips the menu; one outside closes it |
| Navigation.Menu.constructor | src/components/Navigation.tsx:8 | the menu starts closed |
| Navigation.Menu.ToggleClick | src/components/Navigation.tsx:93 | the button click performs `Toggle` |
| Navigation.Menu.CloseClick | src/components/Navigation.tsx:146 | an item or overlay click performs `Close` |
| Navigation.Menu.HandleMouseDown | src/components/Navigation.tsx:67-76 | the document listener performs `MouseDown` |
| Navigation.Menu.HandleKeyDown | src/components/Navigation.tsx:21-59 | the keydown listener performs `KeyStep` |
| ProjectsPage.WithCategory | src/app/projects/page.tsx:49 | the filter keeps only projects of the category, and no more than there are |
| ProjectsPage.WithCategoryMembers | src/app/projects/page.tsx:49 | a project is kept exactly when it is listed and its category matches |
| ProjectsPage.WithCategoryCounts | src/app/projects/page.tsx:49 | each matching project is kept as many times as it is listed, and no other |
| ProjectsPage.WithCategoryAppend | src/app/projects/page.tsx:49 | the filter keeps the original order |
| ProjectsPage.WithCategoryIdempotent | src/app/projects/page.tsx:45-51 | filtering again by the same category changes nothing |
| ProjectsPage.Filtered | src/app/projects/page.tsx:45-51 | the shown list comes from the loaded list and is no longer |
| ProjectsPage.FilteredShows | src/app/projects/page.tsx:45-51 | `all` shows everything, and any other selection shows exactly its projects |
| ProjectsPage.CategoryColumn | src/app/projects/page.tsx:61 | `map` takes each project's category, in order |
| ProjectsPage.Distinct | src/app/projects/page.tsx:61 | the `Set` holds each category once, and only those |
| ProjectsPage.DistinctFirstSeenOrder | src/app/projects/page.tsx:61 | the `Set` keeps first-occurrence order |
| ProjectsPage.Categories | src/app/projects/page.tsx:61 | `all` comes first, followed by exactly the categories of the loaded projects |
| ProjectsPage.CategoriesUnique | src/app/projects/page.tsx:110-113 | the button labels (React keys) are distinct exactly when no project has the category `all` |
| ProjectsPage.NoEmptyCategory | src/app/projects/page.tsx:61 | every button except `all` shows at least one project |
| ProjectsPage.Page.constructor | src/app/projects/page.tsx:28-31 | nothing is loaded, `all` is selected, and the page is loading |
| ProjectsPage.Page.FilterProjects | src/app/projects/page.tsx:45-51 | the shown list becomes the filter of the loaded list by the selection |
| ProjectsPage.Page.LoadProjects | src/app/projects/page.tsx:33-43 | a successful load replaces the list and a failed one keeps it; loading ends either way; the filter effect follows |
| ProjectsPage.Page.SelectCategory | src/app/projects/page.tsx:113 | a button selects its category, and the filter effect follows |
| ProjectsPage.Page.Counts | src/app/projects/page.tsx:141 | the shown count never exceeds the total |
| ProjectsPage.Page.Buttons | src/app/projects/page.tsx:110 | the first button is `all` |
| Pipeline.DistinctTwoRuns | src/app/projects/page.tsx:61 | the distinct values of a run of one value followed by a run of another are those two values, each present only when its run is non-empty |
| Pipeline.RunButtons | src/app/projects/page.tsx:61 | the buttons `all`, `residential`, `unbuilt` (the empty ones left out) carry no label twice |
| Pipeline.RunsCategories | src/app/projects/page.tsx:61 | residential records followed by unbuilt ones give exactly those buttons |
| Pipeline.ManifestCategories | scripts/process-content.js:21-25 | a manifest written by the processor yields those buttons, in that order |

## Left out

- The image encoder (`sharp`: resizing, JPEG quality, cover/inside fit) is not modelled as computation. It is an input: the set of file names on which it throws.
- The markdown reader and `gray-matter` are inputs. A project directory carries the parsed front matter of each markdown file that can be read and parsed; a file absent from that map is one on which reading or parsing throws.
- Front-matter values of types other than a string, or an integer year, are not modelled. A front-matter title of `0` or `false` would also fall back in JavaScript.
- `fs.ensureDir`, `fs.writeJSON` and `console` output are not modelled: they do not change `projects`. A failure of `ensureDir` or `writeJSON` is not modelled.
- Case mapping is ASCII only. `toLowerCase` and `toUpperCase` on non-ASCII letters are not modelled; `\s` is modelled as the full ECMAScript whitespace set.
- The asynchronous scheduling (`await`) is not modelled, because the processor awaits every call in turn. The unhandled rejection that ends a run is modelled as the `None` result of `ProcessContent`.
- React rendering, animation and the `useCallback`/`useEffect` machinery are not modelled. The effects are modelled as the method that runs after the state change.
- The DOM is not modelled: focus, `querySelectorAll`, `contains`. Focus is a value: nothing, the toggle button, or the index of a menu item. The rendered items are the four menu links whenever the menu is open. The `if (!menuItems) return` branch cannot be taken then, so it is not modelled.
- `Navigation.Toggle`: what the browser does with focus on a button click is not modelled. The model keeps the focus, except that focus on an item is dropped when the items unmount.
- `ProjectHero.Gallery.GoToNext` and `ProjectHero.Gallery.GoToPrevious` require at least one image. The buttons are rendered only for more than one image; with none, JavaScript would compute `NaN`.
- `ProjectsPage.Page.LoadProjects`: the response is `None` when the fetch or the JSON parse throws. A body that is not an array of projects is not modelled.
- The HTTP routes, the backend server, the other front-end components, and the config and static data files are not part of this model.
