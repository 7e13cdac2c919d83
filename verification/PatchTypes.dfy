/** What the parser and the patcher of lib/patch.py share. */
module PatchTypes {

  /** A hunk: the line ranges of its header, and the lines of its body, each with its
      marker. */
  datatype Hunk = Hunk(startsrc: nat, linessrc: nat, starttgt: nat, linestgt: nat, invalid: bool, desc: string,
                       text: seq<string>)

  /** A tally of line ends. */
  datatype Ends = Ends(lf: nat, crlf: nat, cr: nat)

  predicate Ending(s: string, t: string) { |t| <= |s| && s[|s| - |t|..] == t }

  function CountEnd(e: Ends, line: string): Ends {
    if Ending(line, "\r\n") then e.(crlf := e.crlf + 1)
    else if Ending(line, "\n") then e.(lf := e.lf + 1)
    else if Ending(line, "\r") then e.(cr := e.cr + 1)
    else e
  }
}
