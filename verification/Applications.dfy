/** The application records of the catalog and of shortcuts. */
module Applications {

  datatype SourceKind = SystemApplications | UserStartMenu | CommonStartMenu | Shortcut | ShellObject

  datatype Source = Source(kind: SourceKind, path: string)

  /** An icon handle; 0 is no icon. */
  type Icon = nat

  datatype Application = Application(
    name: string,
    path: string,
    aumid: string,
    arguments: string,
    workingDirectory: string,
    sources: seq<Source>,
    icon: Icon)
  {
    predicate IsPackaged() {
      aumid != ""
    }
  }

  const NO_APPLICATION := Application("", "", "", "", "", [], 0)
}
