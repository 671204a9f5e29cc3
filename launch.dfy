/** The command-line work-mode rule shared by both programs' constructors. */
module Launch {

  const ON_RUN: string := "run"
  const ON_SETTINGS: string := "settings"

  /** The WorkMode dict: {'run': ..., 'settings': ...}. */
  datatype WorkMode = WorkMode(Run: bool, Settings: bool)

  /**
   * The WorkMode normalisation: when both or neither flag is on argv, settings wins.
   * Exactly one mode results, and run only when argv has 'run' and not 'settings'.
   */
  function SelectWorkMode(argv: seq<string>): (m: WorkMode)
    ensures m.Run != m.Settings
    ensures m.Run <==> ON_RUN in argv && ON_SETTINGS !in argv
  {
    var m := WorkMode(ON_RUN in argv, ON_SETTINGS in argv);
    if m.Run == m.Settings then WorkMode(false, true) else m
  }
}
