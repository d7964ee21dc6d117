/**
 * The logging sink: an append-only list of lines. A line written while a GUI
 * callback is attached is also shown in the GUI (the worker's progress signal).
 */
module Logging {

  datatype Level = Info | Warning | Error

  datatype Line = Line(level: Level, text: string, shownInGui: bool)

  class Log {
    var lines: seq<Line>
    var guiAttached: bool

    constructor (gui: bool)
      ensures lines == [] && guiAttached == gui
    {
      lines := [];
      guiAttached := gui;
    }

    /** `log.log(text, level)`. */
    method Write(level: Level, text: string)
      modifies this
      ensures guiAttached == old(guiAttached)
      ensures lines == old(lines) + [Line(level, text, guiAttached)]
    {
      lines := lines + [Line(level, text, guiAttached)];
    }

    /** `log.gui_logger = None`. */
    method DetachGui()
      modifies this
      ensures !guiAttached && lines == old(lines)
    {
      guiAttached := false;
    }
  }
}
