/** The "Active Users" list and the updates the handlers make to the local
    user's entry, whose id is "you". */
module Users {
  import opened SeqUpdate

  /** A participant shown in the sidebar; `cursor` is a caret offset in the text. */
  datatype User = User(id: string, name: string, color: string, cursor: nat, typing: bool)

  const You: string := "you"

  /** The list the workspace starts with: the local user alone, named
      "You", caret at the start, not typing. */
  function InitialUsers(): (users: seq<User>)
    ensures |users| == 1 && users[0].id == You
    ensures users[0].cursor == 0 && !users[0].typing
  {
    [User(You, "You", "#3b82f6", 0, false)]
  }

  /** `users.map(u => u.id === 'you' ? f(u) : u)`: every entry other than
      the local user's is kept, and an id-preserving update keeps all ids. */
  function UpdateYou(users: seq<User>, f: User -> User): (updated: seq<User>)
    ensures |updated| == |users|
    ensures forall i :: 0 <= i < |users| && users[i].id == You ==> updated[i] == f(users[i])
    ensures forall i :: 0 <= i < |users| && users[i].id != You ==> updated[i] == users[i]
    ensures (forall u :: f(u).id == u.id) ==> forall i :: 0 <= i < |users| ==> updated[i].id == users[i].id
  {
    MapIf(users, (u: User) => u.id == You, f)
  }

  /** The update made on each keystroke: the local user's caret moves to
      `cursor` and it is marked as typing; nothing else changes, and no other
      entry changes. */
  function Typed(users: seq<User>, cursor: nat): (updated: seq<User>)
    ensures |updated| == |users|
    ensures forall i :: 0 <= i < |users| && users[i].id == You ==>
      updated[i] == users[i].(cursor := cursor, typing := true)
    ensures forall i :: 0 <= i < |users| && users[i].id != You ==> updated[i] == users[i]
    ensures forall i :: 0 <= i < |users| ==>
      updated[i].id == users[i].id && updated[i].name == users[i].name && updated[i].color == users[i].color
  {
    UpdateYou(users, (u: User) => u.(cursor := cursor, typing := true))
  }

  /** The update made one second after a keystroke: the local user is no
      longer marked as typing; no other entry changes. */
  function TypingStopped(users: seq<User>): (updated: seq<User>)
    ensures |updated| == |users|
    ensures forall i :: 0 <= i < |users| && users[i].id == You ==> updated[i] == users[i].(typing := false)
    ensures forall i :: 0 <= i < |users| && users[i].id != You ==> updated[i] == users[i]
  {
    UpdateYou(users, (u: User) => u.(typing := false))
  }

  /** The update made when the name field loses focus or Enter is pressed:
      the local user's shown name becomes `name`; no other entry changes. */
  function NamedYou(users: seq<User>, name: string): (updated: seq<User>)
    ensures |updated| == |users|
    ensures forall i :: 0 <= i < |users| && users[i].id == You ==> updated[i] == users[i].(name := name)
    ensures forall i :: 0 <= i < |users| && users[i].id != You ==> updated[i] == users[i]
  {
    UpdateYou(users, (u: User) => u.(name := name))
  }

  /** The typing mark is transient: a keystroke followed by the reset leaves
      the local user not typing, with the caret where the keystroke put it. */
  lemma TypedThenStopped(users: seq<User>, cursor: nat)
    ensures forall i :: 0 <= i < |users| ==>
      TypingStopped(Typed(users, cursor))[i] ==
        if users[i].id == You then users[i].(cursor := cursor, typing := false) else users[i]
  {
  }
}
