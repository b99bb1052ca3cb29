/** The file types offered by the new-file dialog, with their extension and
    starter template, and the "code file" classification. */
module FileKinds {
  import opened Wrappers

  /** The values of the type selector of the new-file dialog; the source
      stores them as the strings "text", "markdown", "javascript", "python",
      "html", "css" and "json". */
  datatype FileType = Text | Markdown | JavaScript | Python | Html | Css | Json

  /** The `fileExtensions` table. */
  function Extension(t: FileType): (ext: string)
    ensures |ext| >= 3 && ext[0] == '.'
    ensures forall i :: 1 <= i < |ext| ==> ext[i] != '.'
  {
    match t
    case JavaScript => ".js"
    case Python => ".py"
    case Html => ".html"
    case Css => ".css"
    case Json => ".json"
    case Markdown => ".md"
    case Text => ".txt"
  }

  /** The `fileTemplates` table: the content a new file of type `t` starts
      with. Only text files start empty. */
  function Template(t: FileType): (body: string)
    ensures t == Text ==> body == []
    ensures t != Text ==> |body| > 0
  {
    match t
    case JavaScript => JavaScriptTemplate
    case Python => PythonTemplate
    case Html => HtmlTemplate
    case Css => CssTemplate
    case Json => JsonTemplate
    case Markdown => MarkdownTemplate
    case Text => ""
  }

  const JavaScriptTemplate: string := "// JavaScript File\n\nfunction main() {\n  console.log(\"Hello, World!\");\n}\n\nmain();"
  const PythonTemplate: string := "# Python File\n\ndef main():\n    print(\"Hello, World!\")\n\nif __name__ == \"__main__\":\n    main()"
  const HtmlTemplate: string := "<!DOCTYPE html>\n<html lang=\"en\">\n<head>\n    <meta charset=\"UTF-8\">\n    <meta name=\"viewport\" content=\"width=device-width, initial-scale=1.0\">\n    <title>Document</title>\n</head>\n<body>\n    <h1>Hello, World!</h1>\n</body>\n</html>"
  const CssTemplate: string := "/* CSS Stylesheet */\n\nbody {\n  font-family: Arial, sans-serif;\n  margin: 0;\n  padding: 20px;\n  background: #f5f5f5;\n}\n\nh1 {\n  color: #333;\n}"
  const JsonTemplate: string := "{\n  \"name\": \"project\",\n  \"version\": \"1.0.0\",\n  \"description\": \"Project description\"\n}"
  const MarkdownTemplate: string := "# Document Title\n\n## Introduction\n\nStart writing your markdown content here..."

  /** The name a new file gets from the name typed in the dialog: the typed
      name itself when it already holds a '.', otherwise the typed name
      followed by the extension of the chosen type. */
  function FullName(typed: string, t: FileType): (name: string)
    ensures name == typed || name == typed + Extension(t)
  {
    if '.' in typed then typed else typed + Extension(t)
  }

  /** The derived name starts with the typed name, exactly as typed, and
      always holds a '.'; what follows the typed name is nothing when the
      typed name holds a '.' and the type's extension otherwise. */
  lemma FullNameShape(typed: string, t: FileType)
    ensures typed <= FullName(typed, t)
    ensures '.' in FullName(typed, t)
    ensures FullName(typed, t)[|typed|..] == if '.' in typed then "" else Extension(t)
  {
    var ext := Extension(t);
    if '.' !in typed {
      assert (typed + ext)[|typed|] == '.';
      assert (typed + ext)[|typed|..] == ext;
    }
  }

  /** Deriving the name twice changes nothing: the derived name always holds
      a '.', so it is kept as it is whatever type is chosen the second time. */
  lemma FullNameIdempotent(typed: string, t: FileType, t': FileType)
    ensures FullName(FullName(typed, t), t') == FullName(typed, t)
  {
    FullNameShape(typed, t);
  }

  /** The sidebar's per-file test `doc.type !== 'text' && doc.type !== 'markdown'`. */
  function IsCode(t: FileType): (code: bool)
    ensures code <==> t in {JavaScript, Python, Html, Css, Json}
  {
    t != Text && t != Markdown
  }

  /** The header's test `activeDoc?.type !== 'text' && activeDoc?.type !== 'markdown'`
      on the type of the active document, or on `undefined` when no document
      has the active id. */
  function IsCodeFile(active: Option<FileType>): (code: bool)
    ensures active.None? ==> code
    ensures active.Some? ==> code == IsCode(active.value)
  {
    active != Some(Text) && active != Some(Markdown)
  }
}
