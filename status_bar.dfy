/** The counts the status bar shows for the editor text. */
module StatusBar {
  import opened Text

  datatype Status = Status(characters: nat, words: nat, lines: nat)

  /** `content.length`, `content.split(/\s+/).filter(w => w.length > 0).length`
      and `content.split('\n').length`. */
  function StatusOf(content: string): (st: Status)
    ensures st.characters == |content|
    ensures st.words == WordCount(content)
    ensures st.lines == Occurrences(content, '\n') + 1
  {
    SplitSpaceRunsWords(content);
    SplitLength(content, '\n');
    Status(|content|, |NonEmpty(SplitSpaceRuns(content))|, |Split(content, '\n')|)
  }
}
