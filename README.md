# CollabEdit workspace model

This project models the editor component of CollabEdit. The component is a single-page
editor. It keeps an in-memory list of files and a sidebar to pick, create, rename and
delete them. It has a text area bound to the active file, a list of "active users" with the
local user's caret and typing mark, and a status bar that counts characters, words and
lines.

The model keeps the component's state as the fields of one class, `Workspace.App`:
`documents`, `activeDocId`, `content` (the editor text), `users`, the local user's
`userName` and `isEditingName`, and the new-file dialog's `showNewDocModal`, `newDocName`
and `newDocType`. Each event handler is one method. A handler makes its own updates and then
runs the effect that copies the active file's content into the editor (`SyncContent`),
since that effect fires whenever the list or the active id changes. The `map`, `filter` and
`find` expressions the handlers apply to the lists are functions, and so are the string
helpers: file-name derivation, the extension and template tables, the code-file test and the
status-bar counts. Lemmas about them give the invariant every handler keeps (`App.Valid`):
- the list is never empty;
- ids are unique;
- the active id names a file;
- the editor shows that file's content.

The editor's placeholder says that changes sync in real time across all users
(src/App.js:361), and the status bar reads "Connected • Auto-saving" (src/App.js:378). The
code has no such mechanism. It keeps one in-memory list, and the second user in the user
list is made up by timers (src/App.js:50-75). The model follows the code.

White space is the exact set of JavaScript's `\s` class, which is also the set `trim`
strips: tab, line feed, vertical tab, form feed, carriage return, space, U+00A0, U+1680,
U+2000 to U+200A, U+2028, U+2029, U+202F, U+205F, U+3000 and U+FEFF.

## Model

| member | source | states |
|---|---|---|
| `Text.IsSpace` | src/App.js:372 | every white-space character lies in the Basic Multilingual Plane, so counting by code points or by UTF-16 units finds the same white space |
| `Text.Trim` | src/App.js:106 | `trim` never lengthens the text, and what it keeps neither starts nor ends with white space |
| `Text.IsBlank` | src/App.js:106 | `!name.trim()` holds exactly when every character of the name is white space (the empty name included) |
| `Text.TrimStart` | src/App.js:106 | the result is no longer than the input, and strictly shorter when the input starts with white space |
| `Text.TrimEnd` | src/App.js:106 | the result is no longer than the input |
| `Text.TrimStartShape` | src/App.js:106 | leading trim keeps a suffix that does not start with white space and drops an all-white-space prefix |
| `Text.TrimEndShape` | src/App.js:106 | trailing trim keeps a prefix that does not end with white space and drops an all-white-space suffix |
| `Text.BlankIffAllSpace` | src/App.js:106 | `!name.trim()` holds exactly when every character of the name is white space |
| `Text.Split` | src/App.js:373 | `split('\n')` always yields at least one piece |
| `Text.SplitLength` | src/App.js:373 | the number of lines is the number of `'\n'` plus one |
| `Text.JoinSplit` | src/App.js:373 | joining the pieces of a split with the separator gives back the text |
| `Text.SplitPiecesFree` | src/App.js:373 | no piece of a split holds the separator |
| `Text.SplitSpaceRuns` | src/App.js:372 | `split(/\s+/)` always yields at least one piece |
| `Text.SplitSpaceRunsPiecesFree` | src/App.js:372 | no piece of `split(/\s+/)` holds white space |
| `Text.NonEmpty` | src/App.js:372 | the filter keeps only non-empty pieces, all taken from its input, never more than it was given, and every non-empty piece of the input is kept |
| `Text.NonEmptyAppend` | src/App.js:372 | filtering a concatenation is the concatenation of the filtered parts, so the kept pieces keep their order and multiplicity |
| `Text.NonEmptySingle` | src/App.js:372 | a single piece is kept exactly when its length is positive |
| `Text.WordStartsSkipSpace` | src/App.js:372 | leading white space does not change the word count |
| `Text.SplitSpaceRunsWords` | src/App.js:372 | the non-empty pieces of `split(/\s+/)` are exactly as many as the maximal runs of non-white-space characters, counted by an independent one-pass scan |
| `StatusBar.StatusOf` | src/App.js:371-373 | the status bar shows the text length as characters, the number of maximal non-white-space runs as words, and the number of `'\n'` plus one as lines |
| `FileKinds.Extension` | src/App.js:33-41 | every extension is a '.' followed by at least two characters, none of them a '.' |
| `FileKinds.Template` | src/App.js:23-31 | the plain-text template is empty and every other type's template is not |
| `FileKinds.FullName` | src/App.js:108-109 | the derived name is the typed name alone or the typed name followed by the type's extension |
| `FileKinds.FullNameShape` | src/App.js:108-109 | the new file's name starts with the typed name exactly as typed (untrimmed) and always holds a '.'; the typed name is used alone when it holds a '.', and otherwise the type's extension follows it |
| `FileKinds.FullNameIdempotent` | src/App.js:108-109 | deriving a name from a derived name changes nothing, whatever type is chosen the second time |
| `FileKinds.IsCode` | src/App.js:231 | a file is shown as code exactly when its type is JavaScript, Python, HTML, CSS or JSON, that is, neither text nor markdown |
| `FileKinds.IsCodeFile` | src/App.js:156-157 | the header's test is the sidebar's test on the active file's type, and answers "code" when no file has the active id |
| `SeqUpdate.MapIf` | src/App.js:81-85 | the conditional `map` keeps the length, applies the update where the test holds and keeps every other element |
| `Documents.Find` | src/App.js:44 | `find` by id returns a record of the list with that id, and returns nothing exactly when no record has it |
| `Documents.FindFirst` | src/App.js:44 | the record `find` returns is the first with that id: no record before it has the id |
| `Documents.FindUnique` | src/App.js:240 | with unique ids, looking up a listed file's id yields that file |
| `Documents.FindAppend` | src/App.js:118-119 | after appending a record with a new id, that id finds the new record and every other id finds what it found before |
| `Documents.AppendKeepsUnique` | src/App.js:111-118 | appending a record whose id is new keeps ids unique |
| `Documents.UpdateById` | src/App.js:81-85 | the conditional `map` by id keeps the length, replaces each record with that id by its update, keeps every record with another id, and an id-preserving update keeps every id |
| `Documents.FindUpdateById` | src/App.js:81-85 | after an id-preserving update of one id, `find` yields the updated record for that id and the old record for any other |
| `Documents.Rename` | src/App.js:131-135 | rename sets `name` only on records with the given id; length, order, ids, contents and types are unchanged, ids stay unique and the same ids are found |
| `Documents.Edit` | src/App.js:81-85 | the records with the edited id get the new content and edit time, the rest are unchanged, ids stay unique, and `find` on that id yields the edited record |
| `Documents.Remove` | src/App.js:125 | the filter never lengthens the list |
| `Documents.RemoveMembers` | src/App.js:125 | the filter keeps exactly the records whose id differs from the deleted one |
| `Documents.RemoveOne` | src/App.js:125 | with unique ids, deleting a listed file's id removes exactly that record and keeps the others in their original order |
| `Documents.RemoveAppend` | src/App.js:125 | filtering a concatenation is the concatenation of the filtered parts, so the kept records keep their order and multiplicity whether or not ids are unique |
| `Documents.RemoveSingle` | src/App.js:125 | a single record is kept exactly when its id differs from the deleted one |
| `Documents.RemoveAbsent` | src/App.js:125 | deleting an id no record has leaves the list unchanged |
| `Documents.RemoveKeepsUnique` | src/App.js:124-125 | with unique ids, delete keeps ids unique and removes at most one record, so a list of two or more stays non-empty |
| `Documents.ActiveAfterDelete` | src/App.js:126-127 | the active id stays unless it is the deleted one; then it becomes the first file's id, or the second's when the first was deleted, and with unique ids it is never the deleted id |
| `Documents.DeleteKeepsActive` | src/App.js:126-127 | with unique ids, the active id chosen after a delete (the old active id, or the first file's id, or the second's when the first was deleted) is not the deleted id and names a file still in the list |
| `Users.InitialUsers` | src/App.js:11-13 | the user list starts with the local user alone, caret at 0 and not typing |
| `Users.UpdateYou` | src/App.js:88-90 | the conditional `map` on the 'you' entry keeps the length, replaces each 'you' entry by its update, keeps every other entry, and an id-preserving update keeps every id |
| `Users.Typed` | src/App.js:87-90 | on a keystroke only the 'you' entry changes, and only its caret and typing mark; other entries and all ids, names and colours are unchanged |
| `Users.TypingStopped` | src/App.js:92-96 | the reset clears only the 'you' entry's typing mark |
| `Users.NamedYou` | src/App.js:282-284 | committing the name field changes only the 'you' entry's name |
| `Users.TypedThenStopped` | src/App.js:88-95 | a keystroke followed by the reset leaves the local user not typing, with the caret where the keystroke put it |
| `Workspace.InitialDocuments` | src/App.js:5-8 | the two starter files: ids "1" and "2", unique, a markdown and a JavaScript file, each stamped with its own clock reading |
| `Workspace.NewDocument` | src/App.js:111-117 | the new record carries the given id, type and time, the type's template, and the name `FullName(typedName, t)`, which starts with the typed name and holds a '.' |
| `Workspace.App.constructor` | src/App.js:5-48 | the initial state: the two starter files, file "1" active and shown in the editor, the local user alone, the dialog closed |
| `Workspace.App.SyncContent` | src/App.js:43-48 | the editor takes the content of the file with the active id, and keeps its text when there is none |
| `Workspace.App.SelectDocument` | src/App.js:240 | clicking a listed file makes its id active and shows its content; the invariant is kept |
| `Workspace.App.HandleContentChange` | src/App.js:77-90 | the editor and the active file take the new text, the active file the edit time, only the 'you' user entry's caret and typing mark change, and the invariant is kept |
| `Workspace.App.TypingTimeout` | src/App.js:92-96 | the later reset step clears the local user's typing mark |
| `Workspace.App.OpenNewDocModal` | src/App.js:99-103 | "New File" opens the dialog with an empty name and the text type |
| `Workspace.App.CancelNewDocModal` | src/App.js:202 | "Cancel" closes the dialog |
| `Workspace.App.SetNewDocName` | src/App.js:171 | typing in the dialog sets the name it holds |
| `Workspace.App.SetNewDocType` | src/App.js:182 | the type selector sets the type the dialog holds |
| `Workspace.App.ConfirmCreateDocument` | src/App.js:105-121 | a blank name changes nothing; otherwise exactly one record is appended after the unchanged existing ones, with the derived name, the type's template and the chosen type; its id becomes active, the editor shows the template, the dialog closes, and the invariant is kept |
| `Workspace.App.AddDocument` | src/App.js:118-120 | appending a record with a new id, making it active and closing the dialog keeps the invariant and shows the record's content |
| `Workspace.App.DeleteDocument` | src/App.js:123-129 | with one file nothing changes; otherwise the records with that id are filtered out and the active id moves to the first file, or to the second when the first was deleted, only if the deleted file was active; the list never becomes empty and the invariant is kept |
| `Workspace.App.RenameDocument` | src/App.js:131-135 | only the names of the records with that id change, the editor text stays, and the invariant is kept |
| `Workspace.App.StartEditingName` | src/App.js:301 | clicking a user's name opens the name field only for the local user |
| `Workspace.App.SetUserName` | src/App.js:279 | typing in the name field sets the pending name |
| `Workspace.App.CommitUserName` | src/App.js:280-293 | blur or Enter closes the name field and gives the local user's entry the typed name |
| `Workspace.App.ActiveIsCode` | src/App.js:156-157 | under the invariant, the header's code-file test is the sidebar's test on the active file's type |

## Left out

- Rendering: the JSX markup, the dialog markup, icons and styling (src/App.js:159-383) are the view layer. This includes the status bar's upper-cased type label (line 374).
- The simulated collaborator (src/App.js:50-75) is left out. It runs on `setInterval` and `Math.random()` and adds or toggles a fabricated second user.
- Download and copy to clipboard (src/App.js:137-154) are left out. They call browser I/O (`Blob`, `URL`, `document`, `navigator.clipboard`), and so does the `copied` flag with its timer.
- Timers: the one-second reset of the typing mark is modelled as a separate later step, `TypingTimeout`. When that step runs is not modelled.
- Clock values: `Date.now()` ids and `new Date()` edit times are parameters. `ConfirmCreateDocument` requires the id to be new. The code does not ensure this: two files created within the same millisecond would share an id.
- React semantics: batched and functional state updates are not modelled. Each handler is one atomic step on the current state. `deleteDocument` reads `documents` from its render, not from the updated state; the model reads the current list.
- The caret position `selectionStart` is a parameter of `HandleContentChange`.
- File types are the seven values the type selector offers. Looking up a type outside the tables cannot happen through the dialog, so it is not modelled.
- FileKinds.Template: its contract says only which templates are empty. The texts themselves are the constants next to it, copied from the table.
- StatusBar.StatusOf: characters are counted as Unicode scalar values. `content.length` counts UTF-16 code units, so the two differ for text outside the Basic Multilingual Plane. All white-space characters lie inside that plane, so the word and line counts agree.
