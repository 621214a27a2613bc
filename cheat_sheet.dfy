/**
 * The fixed table the program searches (brcs.py:10-75) and a few concrete
 * queries against it.
 */
module CheatSheetData {
  import opened Text
  import opened Brcs

  // Three rows are named so that the queries below can refer to them. Their
  // text is written in pieces, split where the searched words begin and end;
  // each is the same string as the row of brcs.py it stands for.

  /** Row 0 of the table (brcs.py:10). */
  const RedirectStdout := Entry("cmd > file",
                                "Redirect" + " the standard output (" + "stdout" + ") of cmd to a file.")
  /** Row 3 of the table (brcs.py:14). */
  const AppendStdout := Entry("cmd >> file", "Append stdout" + " of cmd to a file.")
  /** Row 25 of the table (brcs.py:48-49). */
  const DevTcp := Entry("exec 3<> /dev/" + "tcp" + "/host/port",
                        "Open a TCP connection to host:port. (This is a bash feature, " + " not Linux feature).")

  /** The rows of the cheat sheet, in display order, exactly as the program holds them. */
  const CheatSheet: seq<Entry> := [
      RedirectStdout,
      Entry("cmd 1> file",
            "Same as cmd > file. 1 is the default file descriptor (fd) for stdout."),
      Entry("cmd 2> file",
            "Redirect the standard error (stderr) of cmd to a file. 2 is the default fd for stderr."),
      AppendStdout,
      Entry("cmd 2>> file",
            "Append stderr of cmd to a file."),
      Entry("cmd &> file ",
            "Redirect stdout and stderr of cmd to a file."),
      Entry("cmd > file 2>&1",
            "Another way to redirect both stdout and stderr of cmd to a file. This is not thesame as cmd 2>&1 > file. Redirection order matters!"),
      Entry("cmd > /dev/null",
            "Discard stdout of cmd."),
      Entry("cmd 2> /dev/null",
            "Discard stderr of cmd."),
      Entry("cmd &> /dev/null ",
            "Discard stdout and stderr of cmd."),
      Entry("cmd < file ",
            "Redirect the contents of the file to the standard input (stdin) of cmd."),
      Entry("cmd << EOL\nline1\nline2\nEOL",
            "Redirect a bunch of lines to the stdin. If 'EOL' is quoted, text is treated literally. This is called a here-document."),
      Entry("cmd <<- EOL\n<tab>foo\n<tab><tab>bar\nEOL",
            "Redirect a bunch of lines to the stdin and strip the leading tabs."),
      Entry("cmd <<< \"string\"",
            "Redirect a single line of text to the stdin of cmd. This is called a here-string."),
      Entry("exec 2> file",
            "Redirect stderr of all commands to a file forever."),
      Entry("exec 3< file",
            "Open a file for reading using a custom file descriptor."),
      Entry("exec 3> file",
            "Open a file for writing using a custom file descriptor."),
      Entry("exec 3<> file",
            "Open a file for reading and writing using a custom file descriptor."),
      Entry("exec 3>&-",
            "Close a file descriptor."),
      Entry("exec 4>&3",
            "Make file descriptor 4 to be a copy of file descriptor 3. (Copy fd 3 to 4.)"),
      Entry("exec 4>&3-",
            "Copy file descriptor 3 to 4 and close file descriptor 3."),
      Entry("echo \"foo\" >&3 ",
            "Write to a custom file descriptor."),
      Entry("cat <&3 ",
            "Read from a custom file descriptor."),
      Entry("(cmd1; cmd2) > file",
            "Redirect stdout from multiple commands to a file (using a sub-shell)."),
      Entry("{ cmd1; cmd2; } > file ",
            "Redirect stdout from multiple commands to a file (faster; not using a sub-shell)."),
      DevTcp,
      Entry("exec 3<> /dev/udp/host/port",
            "Open a UDP connection to host:port. (This is a bash feature, not Linux feature)."),
      Entry("cmd <(cmd1)",
            "Redirect stdout of cmd1 to an anonymous FIFO, then pass the FIFO to cmd as an argument. Useful when cmd does not read from stdin directly."),
      Entry("cmd < <(cmd1)",
            "Redirect stdout of cmd1 to an anonymous FIFO, then redirect the FIFO to stdin of cmd. Best example: diff <(find /path1 | sort) <(find /path2 | sort)."),
      Entry("cmd <(cmd1) <(cmd2)",
            "Redirect stdout of cmd1 and cmd2 to two anonymous FIFOs, then pass both FIFOs  as arguments to cmd."),
      Entry("cmd1 >(cmd2)",
            "Run cmd2 with its stdin connected to an anonymous FIFO, and pass the filename of the pipe as an argument to cmd1."),
      Entry("cmd1 > >(cmd2)",
            "Run cmd2 with its stdin connected to an anonymous FIFO, then redirect stdout of cmd to this anonymous pipe."),
      Entry("cmd1 | cmd2",
            "Redirect stdout of cmd1 to stdin of cmd2. Pro-tip: This is the same as cmd1 > >(cmd2), same as cmd2 < <(cmd1), same as > >(cmd2) cmd1, same as < <(cmd1) cmd2."),
      Entry("cmd1 |& cmd2 ",
            "Redirect stdout and stderr of cmd1 to stdin of cmd2 (bash 4.0+ only). Use cmd1 2>&1 | cmd2 for older bashes."),
      Entry("cmd | tee file",
            "Redirect stdout of cmd to a file and print it to screen."),
      Entry("exec {filew}> file ",
            "Open a file for writing using a named file descriptor called {filew} (bash 4.1+)."),
      Entry("cmd 3>&1 1>&2 2>&3",
            "Swap stdout and stderr of cmd."),
      Entry("cmd > >(cmd1) 2> >(cmd2)",
            "Send stdout of cmd to cmd1 and stderr of cmd to cmd2."),
      Entry("cmd1 | cmd2 | cmd3 | cmd4\necho ${PIPESTATUS[@]} ",
            "Find out the exit codes of all piped commands.")
    ]

  /** The keyword `tcp` occurs, ignoring case, in the pattern of the `/dev/tcp` row, so the row passes `-j tcp`. */
  lemma DevTcpMatchesTcp()
    ensures Contains("tcp", Lower(DevTcp.pattern))
    ensures JoinMatch(["tcp"], DevTcp)
  {
    var a, b, c := "exec 3<> /dev/", "tcp", "/host/port";
    assert |a| == 14 && |b| == 3;
    assert (a + b + c)[14..17] == b;
    FoldedSliceContained("tcp", DevTcp.pattern, 14, 17);
    assert "tcp" in ["tcp"] && Lower("tcp") == "tcp";
  }

  /** `-j tcp` shows the `/dev/tcp` row of any table that lists it, the cheat sheet among them. */
  lemma JoinTcpShowsDevTcp(table: seq<Entry>)
    requires DevTcp in table
    ensures DevTcp in Filter(Join(["tcp"]), table)
  {
    DevTcpMatchesTcp();
    FilterMembership(Join(["tcp"]), table);
  }

  /** `redirect` occurs, ignoring case, at the start of the first row's description. */
  lemma RedirectInFirstRow()
    ensures Contains("redirect", Lower(RedirectStdout.description))
  {
    var a, b, c, d := "Redirect", " the standard output (", "stdout", ") of cmd to a file.";
    assert |a| == 8 && (a + b + c + d)[0..8] == a;
    assert Lower(a) == "redirect";
    FoldedSliceContained("redirect", RedirectStdout.description, 0, 8);
  }

  /** `stdout` occurs in the first row's description, inside the parentheses. */
  lemma StdoutInFirstRow()
    ensures Contains("stdout", Lower(RedirectStdout.description))
  {
    var a, b, c, d := "Redirect", " the standard output (", "stdout", ") of cmd to a file.";
    assert |a| == 8 && |b| == 22 && |c| == 6;
    assert (a + b + c + d)[30..36] == c;
    assert Lower(c) == "stdout";
    FoldedSliceContained("stdout", RedirectStdout.description, 30, 36);
  }

  /** Both `redirect` and `stdout` occur, ignoring case, in the description of the first row. */
  lemma RedirectStdoutMatches()
    ensures IntersectionMatch(["redirect", "stdout"], RedirectStdout)
  {
    RedirectInFirstRow();
    StdoutInFirstRow();
    assert Lower("redirect") == "redirect" && Lower("stdout") == "stdout";
  }

  /** `-i redirect stdout` shows the first row of the cheat sheet, in any table that lists it. */
  lemma IntersectionRedirectStdoutShowsFirstRow(table: seq<Entry>)
    requires RedirectStdout in table
    ensures RedirectStdout in Filter(Intersection(["redirect", "stdout"]), table)
  {
    RedirectStdoutMatches();
    FilterMembership(Intersection(["redirect", "stdout"]), table);
  }

  /** The description "Append stdout of cmd to a file." has no `r` in either case. */
  lemma AppendStdoutHasNoR()
    ensures forall j :: 0 <= j < |AppendStdout.description| ==>
              AppendStdout.description[j] != 'r' && AppendStdout.description[j] != 'R'
  {
    var a, b := "Append stdout", " of cmd to a file.";
    assert |a| == 13 && |b| == 18;
    forall j | 0 <= j < |a + b| ensures (a + b)[j] != 'r' && (a + b)[j] != 'R' {
      if j < 13 {
        assert (a + b)[j] == a[j];
      } else {
        assert (a + b)[j] == b[j - 13];
      }
    }
  }

  /** Without an `r`, the fourth row's description cannot contain `redirect`, in any case. */
  lemma RedirectNotInAppendStdout()
    ensures !Contains("redirect", Lower(AppendStdout.description))
  {
    var d := AppendStdout.description;
    AppendStdoutHasNoR();
    assert forall j :: 0 <= j < |d| ==> Lower(d)[j] == LowerChar(d[j]);
    MissingCharNotContained("redirect", Lower(d), 'r');
  }

  /** The fourth row fails the test of `-i redirect stdout`. */
  lemma AppendStdoutLacksRedirect()
    ensures !IntersectionMatch(["redirect", "stdout"], AppendStdout)
  {
    RedirectNotInAppendStdout();
    assert "redirect" in ["redirect", "stdout"] && Lower("redirect") == "redirect";
  }

  /** `-i redirect stdout` leaves out the fourth row of the cheat sheet, whose description lacks "redirect", from any table. */
  lemma IntersectionRedirectStdoutOmitsAppend(table: seq<Entry>)
    ensures AppendStdout !in Filter(Intersection(["redirect", "stdout"]), table)
  {
    AppendStdoutLacksRedirect();
    FilterMembership(Intersection(["redirect", "stdout"]), table);
  }

  /** The cheat sheet has 39 rows, the first of them the row named `RedirectStdout`. */
  lemma TableSizeAndFirstRow()
    ensures |CheatSheet| == 39 && CheatSheet[0] == RedirectStdout
  {
  }

  /** The rows named `AppendStdout` and `DevTcp` stand at positions 3 and 25 of the cheat sheet. */
  lemma NamedRowsListed()
    ensures CheatSheet[3] == AppendStdout && CheatSheet[25] == DevTcp
  {
  }

  /** `-j tcp` on the cheat sheet shows its `/dev/tcp` row. */
  lemma CheatSheetJoinTcp()
    ensures DevTcp in Filter(Join(["tcp"]), CheatSheet)
  {
    NamedRowsListed();
    JoinTcpShowsDevTcp(CheatSheet);
  }

  /** `-i redirect stdout` on the cheat sheet shows its first row. */
  lemma CheatSheetIntersectionShowsFirstRow()
    ensures RedirectStdout in Filter(Intersection(["redirect", "stdout"]), CheatSheet)
  {
    TableSizeAndFirstRow();
    IntersectionRedirectStdoutShowsFirstRow(CheatSheet);
  }

  /** `-i redirect stdout` on the cheat sheet leaves out its row `cmd >> file`. */
  lemma CheatSheetIntersectionOmitsAppend()
    ensures AppendStdout in CheatSheet
    ensures AppendStdout !in Filter(Intersection(["redirect", "stdout"]), CheatSheet)
  {
    NamedRowsListed();
    IntersectionRedirectStdoutOmitsAppend(CheatSheet);
  }
}
