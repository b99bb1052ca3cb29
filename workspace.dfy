/** The state of the editor component and its event handlers. Each handler is
    one atomic step: its own updates, followed by the effect that copies the
    active document's content into the editor whenever the active id or the
    list changes. */
module Workspace {
  import opened Wrappers
  import opened Text
  import opened FileKinds
  import opened Documents
  import opened Users

  /** The two files the workspace opens with, stamped with two clock
      readings: a markdown file with id "1" and a JavaScript file with id "2". */
  function InitialDocuments(created1: Time, created2: Time): (docs: seq<Document>)
    ensures |docs| == 2 && UniqueIds(docs)
    ensures docs[0].id == "1" && docs[0].fileType == Markdown && docs[0].lastEdited == created1
    ensures docs[1].id == "2" && docs[1].fileType == JavaScript && docs[1].lastEdited == created2
  {
    [ Document("1", "Project Proposal.md", ProposalText, created1, Markdown),
      Document("2", "app.js", GreetingText, created2, JavaScript) ]
  }

  /** The starter contents of the two initial files. */
  const ProposalText: string := "# Project Proposal\n\nStart writing your project proposal here..."
  const GreetingText: string := "// JavaScript Code\nconst greeting = \"Hello, World!\";\nconsole.log(greeting);"

  /** The record a confirmed new-file dialog adds: it carries the given id,
      type and time, its name starts with the typed name and holds a '.',
      and it starts with the type's template. */
  function NewDocument(id: string, typedName: string, t: FileType, now: Time): (d: Document)
    ensures d.id == id && d.fileType == t && d.lastEdited == now
    ensures d.content == Template(t)
    ensures d.name == FullName(typedName, t)
    ensures typedName <= d.name && '.' in d.name
  {
    FullNameShape(typedName, t);
    Document(id, FullName(typedName, t), Template(t), now, t)
  }

  class App {
    var documents: seq<Document>
    var activeDocId: string
    /** The text shown in the editor. */
    var content: string
    var users: seq<User>
    /** The name being typed in the local user's name field. */
    var userName: string
    var isEditingName: bool
    var showNewDocModal: bool
    var newDocName: string
    var newDocType: FileType

    /** The list is never empty, ids are unique, the active id names a
        document, and the editor shows that document's content. */
    ghost predicate Valid()
      reads this
    {
      |documents| >= 1 && UniqueIds(documents)
      && Find(documents, activeDocId).Some?
      && content == Find(documents, activeDocId).value.content
    }

    /** The initial state, after the first run of the content-sync effect. */
    constructor (created1: Time, created2: Time)
      ensures Valid()
      ensures documents == InitialDocuments(created1, created2) && activeDocId == "1"
      ensures content == InitialDocuments(created1, created2)[0].content
      ensures users == InitialUsers() && userName == "You" && !isEditingName
      ensures !showNewDocModal && newDocName == "" && newDocType == Text
    {
      documents := InitialDocuments(created1, created2);
      activeDocId := "1";
      content := "";
      users := InitialUsers();
      userName := "You";
      isEditingName := false;
      showNewDocModal := false;
      newDocName := "";
      newDocType := Text;
      new;
      SyncContent();
    }

    /** The effect that runs when `activeDocId` or `documents` changes: the
        editor takes the content of the document with the active id, and
        keeps its text when there is none. */
    method SyncContent()
      modifies this`content
      ensures Find(documents, activeDocId).Some? ==> content == Find(documents, activeDocId).value.content
      ensures Find(documents, activeDocId).None? ==> content == old(content)
    {
      var doc := Find(documents, activeDocId);
      if doc.Some? {
        content := doc.value.content;
      }
    }

    /** A click on the `i`-th file of the sidebar makes it active, and the
        editor then shows its content. */
    method SelectDocument(i: nat)
      requires Valid() && i < |documents|
      modifies this`activeDocId, this`content
      ensures Valid()
      ensures activeDocId == documents[i].id && content == documents[i].content
    {
      activeDocId := documents[i].id;
      FindUnique(documents, i);
      SyncContent();
    }

    /** A change of the editor text to `newContent` with the caret at
        `cursorPos`, at time `now`: the active document takes the text and
        the time, the editor shows the text, and the local user's caret moves
        and it is marked as typing. */
    method HandleContentChange(newContent: string, cursorPos: nat, now: Time)
      requires Valid()
      modifies this`content, this`documents, this`users
      ensures Valid()
      ensures content == newContent
      ensures documents == Edit(old(documents), activeDocId, newContent, now)
      ensures Find(documents, activeDocId) == Some(Find(old(documents), activeDocId).value.(content := newContent, lastEdited := now))
      ensures users == Typed(old(users), cursorPos)
    {
      content := newContent;
      documents := Edit(documents, activeDocId, newContent, now);
      users := Typed(users, cursorPos);
      SyncContent();
    }

    /** The timer a second after a keystroke: the local user stops typing. */
    method TypingTimeout()
      modifies this`users
      ensures users == TypingStopped(old(users))
    {
      users := TypingStopped(users);
    }

    /** "New File": the dialog opens with an empty name and the text type. */
    method OpenNewDocModal()
      modifies this`showNewDocModal, this`newDocName, this`newDocType
      ensures showNewDocModal && newDocName == "" && newDocType == Text
    {
      showNewDocModal := true;
      newDocName := "";
      newDocType := Text;
    }

    /** "Cancel": the dialog closes; what was typed in it is kept. */
    method CancelNewDocModal()
      modifies this`showNewDocModal
      ensures !showNewDocModal
    {
      showNewDocModal := false;
    }

    /** Typing in the dialog's name field. */
    method SetNewDocName(name: string)
      modifies this`newDocName
      ensures newDocName == name
    {
      newDocName := name;
    }

    /** Choosing in the dialog's type selector. */
    method SetNewDocType(t: FileType)
      modifies this`newDocType
      ensures newDocType == t
    {
      newDocType := t;
    }

    /** "Create" (or Enter in the name field), with `id` the clock reading
        that names the new file and `now` its edit time. A blank name changes
        nothing. Otherwise one record is appended after the existing ones,
        named from the typed name and type, holding the type's template; it
        becomes active, the editor shows the template and the dialog closes. */
    method ConfirmCreateDocument(id: string, now: Time)
      requires Valid()
      requires !HasId(documents, id)
      modifies this`documents, this`activeDocId, this`showNewDocModal, this`content
      ensures Valid()
      ensures IsBlank(newDocName) ==>
        documents == old(documents) && activeDocId == old(activeDocId)
        && showNewDocModal == old(showNewDocModal) && content == old(content)
      ensures !IsBlank(newDocName) ==>
        documents == old(documents) + [NewDocument(id, newDocName, newDocType, now)]
        && activeDocId == id && !showNewDocModal && content == Template(newDocType)
    {
      if IsBlank(newDocName) {
        return;
      }
      AddDocument(NewDocument(id, newDocName, newDocType, now));
    }

    /** The three updates of a confirmed dialog: the record is appended, its
        id becomes active and the dialog closes; the sync effect then shows
        its content. */
    method AddDocument(newDoc: Document)
      requires Valid()
      requires !HasId(documents, newDoc.id)
      modifies this`documents, this`activeDocId, this`showNewDocModal, this`content
      ensures Valid()
      ensures documents == old(documents) + [newDoc]
      ensures activeDocId == newDoc.id && !showNewDocModal && content == newDoc.content
    {
      var before := documents;
      documents := documents + [newDoc];
      activeDocId := newDoc.id;
      showNewDocModal := false;
      FindAppend(before, newDoc, newDoc.id);
      AppendKeepsUnique(before, newDoc);
      SyncContent();
    }

    /** The delete button of a file. With one file left nothing happens.
        Otherwise the records with that id are removed; if the deleted file
        was active, the first file of the old list becomes active, or the
        second when the first was the one deleted. */
    method DeleteDocument(docId: string)
      requires Valid()
      modifies this`documents, this`activeDocId, this`content
      ensures Valid()
      ensures |old(documents)| == 1 ==>
        documents == old(documents) && activeDocId == old(activeDocId) && content == old(content)
      ensures |old(documents)| != 1 ==>
        documents == Remove(old(documents), docId)
        && activeDocId == ActiveAfterDelete(old(documents), old(activeDocId), docId)
    {
      if |documents| == 1 {
        return;
      }
      var before := documents;
      documents := Remove(documents, docId);
      if activeDocId == docId {
        activeDocId := if before[0].id == docId then before[1].id else before[0].id;
      }
      RemoveKeepsUnique(before, docId);
      DeleteKeepsActive(before, old(activeDocId), docId);
      SyncContent();
    }

    /** Typing in the header's name field renames file `docId`: only the
        names of the records with that id change, and the editor text stays. */
    method RenameDocument(docId: string, newName: string)
      requires Valid()
      modifies this`documents, this`content
      ensures Valid()
      ensures documents == Rename(old(documents), docId, newName)
      ensures content == old(content)
    {
      var before := documents;
      documents := Rename(documents, docId, newName);
      FindUpdateById(before, docId, (d: Document) => d.(name := newName), activeDocId);
      SyncContent();
    }

    /** A click on a user's name opens the name field, for the local user only. */
    method StartEditingName(userId: string)
      modifies this`isEditingName
      ensures isEditingName == (old(isEditingName) || userId == You)
    {
      if userId == You {
        isEditingName := true;
      }
    }

    /** Typing in the local user's name field. */
    method SetUserName(name: string)
      modifies this`userName
      ensures userName == name
    {
      userName := name;
    }

    /** Leaving the name field, or Enter in it: the field closes and the
        local user's entry takes the typed name. */
    method CommitUserName()
      modifies this`isEditingName, this`users
      ensures !isEditingName
      ensures users == NamedYou(old(users), userName)
    {
      isEditingName := false;
      users := NamedYou(users, userName);
    }

    /** The header's "Code File" test on the active document. */
    function ActiveIsCode(): (code: bool)
      reads this
      ensures Valid() ==> code == IsCode(Find(documents, activeDocId).value.fileType)
    {
      IsCodeFile(match Find(documents, activeDocId) case None => None case Some(d) => Some(d.fileType))
    }
  }
}
