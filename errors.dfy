/**
  The errors the scaffolder returns, one constructor per `errors.New` or
  `fmt.Errorf` site, and the text Go's `Error()` method gives for each. The
  text matters: the command line classifies a failure by searching it.
 */
module Errors {
  import opened Text

  datatype Error =
    // generator.go
    | InvalidStack(key: string)
    | InvalidDatabase(key: string)
    | NameRequired
    | UnsupportedStack(stack: string)
    | UnsupportedDatabase(database: string)
    | TemplateNotFound(stack: string, database: string, base: string, cause: Error)
    | ParseTemplate(path: string, detail: string)
    | ExecuteTemplate(path: string, detail: string)
    // an error of the template library returned without wrapping
    | TemplateFailure(detail: string)
    // an *os.PathError: operation, path and the operating system's reason
    | PathError(op: string, path: string, reason: string)
    // plugin/auth/plugin.go
    | MarkerNotFound(marker: string, path: string)
    | AuthPlugin(inner: Error)
    | AuthUnsupportedStack(key: string)
    // cli/init.go
    | WrongArgCount
    | EmptyProjectName
    | InvalidNameChars
    | DockerConflict

  /** The text of `err.Error()`. */
  function Message(e: Error): string {
    match e
    case InvalidStack(key) => "invalid stack " + Quote(key) + " (use: go-gin | node-express)"
    case InvalidDatabase(key) => "invalid db " + Quote(key) + " (use: postgresql | mongodb | sqlite)"
    case NameRequired => "project name is required"
    case UnsupportedStack(s) => "unsupported stack: " + Quote(s)
    case UnsupportedDatabase(d) => "unsupported database: " + Quote(d)
    case TemplateNotFound(s, d, base, cause) => "template not found" + NotFoundDetail(s, d, base, Message(cause))
    case ParseTemplate(path, detail) => "parse template " + path + ": " + detail
    case ExecuteTemplate(path, detail) => "execute template " + path + ": " + detail
    case TemplateFailure(detail) => detail
    case PathError(op, path, reason) => op + " " + path + ": " + reason
    case MarkerNotFound(marker, path) => "required marker " + Quote(marker) + " not found in " + path
    case AuthPlugin(inner) => "auth plugin: " + Message(inner)
    case AuthUnsupportedStack(key) => "auth plugin: unsupported stack " + Quote(key)
    case WrongArgCount => "expected exactly one argument: <project-name>"
    case EmptyProjectName => "project-name cannot be empty"
    case InvalidNameChars => "project-name contains invalid path characters"
    case DockerConflict => "cannot use --docker and --no-docker together"
  }

  function NotFoundDetail(stack: string, database: string, base: string, cause: string): string {
    " for stack=" + Quote(stack) + " db=" + Quote(database) + " (expected " + base + "): " + cause
  }

  /** Every "template not found" error says so at the start of its text, which
      is what the command line looks for. */
  lemma TemplateNotFoundSaysSo(stack: string, database: string, base: string, cause: Error)
    ensures HasPrefix(Message(TemplateNotFound(stack, database, base, cause)), "template not found")
  {
    var m := Message(TemplateNotFound(stack, database, base, cause));
    assert m == "template not found" + NotFoundDetail(stack, database, base, Message(cause));
  }

  /** So its text contains the words the command line searches for. */
  lemma TemplateNotFoundIsRecognised(e: Error)
    requires e.TemplateNotFound?
    ensures Contains(Message(e), "template not found")
  {
    TemplateNotFoundSaysSo(e.stack, e.database, e.base, e.cause);
    PrefixIsContained(Message(e), "template not found");
  }
}
