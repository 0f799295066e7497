/** The set of timed tasks, its file image, and the quota of executions (`timed_task.cpp`, `smart_service.cpp`). */
module TimedTasks {
  import opened Basics
  import opened CronText

  /** A stored task; the counts may be absent. `body` is the rest of the object. */
  datatype Task = Task(id: string, cron: string, kind: int, executed: Option<int>, maxCount: Option<int>, body: string)

  // ---------------------------------------------------------------------------------------------------------
  // The image of the list in the cron file
  // ---------------------------------------------------------------------------------------------------------

  const CD := "cd ${WORK_DIR} && "
  const MKDIR := "mkdir -p logs && "
  const CAT := "cat "

  /** The command of a task; `tail` publishes the file and depends on the configuration only. */
  function Command(id: string, tail: string): string {
    CD + MKDIR + CAT + DIRECTORY + id + SUFFIX + tail
  }

  function Line(t: Task, tail: string): string {
    t.cron + " root " + Command(t.id, tail)
  }

  /** The task is read back from its line: five fields, and nothing that breaks the line. */
  predicate Printable(t: Task, tail: string) {
    FiveFields(t.cron + " ") && OneLine(t.cron) && OneLine(t.id) && NoSuffix(tail) && OneLine(tail)
  }

  predicate NoSuffix(s: string) {
    forall k :: 0 <= k < |s| ==> !SuffixAt(s, k)
  }

  lemma PrefixHasNoCat()
    ensures |CD| == 18 && |MKDIR| == 17 && CD[1] == 'd'
    ensures forall h :: 0 < h < 35 ==> (CD + MKDIR)[h] != 'c'
  {
    assert |CD| == 18 && |MKDIR| == 17;
    forall h | 0 < h < 35
      ensures (CD + MKDIR)[h] != 'c'
    {
      if h < 18 {
        assert (CD + MKDIR)[h] == CD[h];
      } else {
        assert (CD + MKDIR)[h] == MKDIR[h - 18];
      }
    }
  }

  lemma CommandLayout(id: string, tail: string)
    ensures |CD| == 18 && |MKDIR| == 17
    ensures var s := Command(id, tail);
      && s[..35] == CD + MKDIR && s[35..] == CAT + DIRECTORY + id + SUFFIX + tail
      && s[52..52 + |id|] == id && s[52 + |id|..57 + |id|] == SUFFIX && s[57 + |id|..] == tail
      && CatAt(s, 35)
  {
    var s := Command(id, tail);
    assert s == CD + MKDIR + (CAT + DIRECTORY + id + SUFFIX + tail);
    assert s[35..39] == CAT && s[35..38] == "cat" && s[38] == ' ' && s[39..52] == DIRECTORY;
  }

  lemma CatIsFirst(id: string, tail: string)
    ensures |Command(id, tail)| >= 57 && FirstCat(Command(id, tail), 0) == 35
  {
    var s := Command(id, tail);
    CommandLayout(id, tail);
    PrefixHasNoCat();
    assert s[1] == s[..35][1] == 'd';
    forall h: nat | h < 35
      ensures !CatAt(s, h)
    {
      assert s[..35][h] == s[h];
      assert s[h..h + 3][0] == s[h] && s[h..h + 3][1] == s[h + 1];
    }
  }

  lemma CommandIsOneLine(id: string, tail: string)
    requires OneLine(id) && OneLine(tail)
    ensures OneLine(Command(id, tail))
  {
    assert OneLine(CD) && OneLine(MKDIR) && OneLine(CAT) && OneLine(DIRECTORY) && OneLine(SUFFIX);
  }

  /** The name of the task file is read back exactly if the rest of the command does not contain ".json". */
  lemma NameIsRead(id: string, tail: string)
    requires OneLine(id) && OneLine(tail)
    ensures TaskName(Command(id, tail)) == Some(id) <==> NoSuffix(tail)
  {
    var s := Command(id, tail);
    CommandIsOneLine(id, tail);
    CommandLayout(id, tail);
    CatIsFirst(id, tail);
    var j := 52 + |id|;
    assert s[j..j + 5] == SUFFIX;
    if NoSuffix(tail) {
      forall k: nat | j < k
        ensures !SuffixAt(s, k)
      {
        NoLaterSuffix(s, j, k, tail);
      }
      assert Extracts(s, 35, j);
      TaskNameMeaning(s, 35, j);
    } else {
      var k :| 0 <= k < |tail| && SuffixAt(tail, k);
      assert s[j + 5 + k..j + 10 + k] == tail[k..k + 5];
      assert SuffixAt(s, j + 5 + k);
      var last := LastSuffix(s, 52);
      assert last >= j + 5 + k;
      assert |s[52..last]| > |id|;
    }
  }

  lemma NoLaterSuffix(s: string, j: nat, k: nat, tail: string)
    requires j + 5 <= |s| && s[j..j + 5] == SUFFIX && s[j + 5..] == tail && NoSuffix(tail) && j < k
    ensures !SuffixAt(s, k)
  {
    if k + 5 <= |s| {
      if k < j + 5 {
        assert s[k] == SUFFIX[k - j] != '.';
        assert s[k..k + 5][0] == s[k];
      } else {
        assert s[j + 5..][k - j - 5..k - j] == s[k..k + 5];
        assert !SuffixAt(tail, k - j - 5);
      }
    }
  }

  lemma LineLayout(cron: string, command: string)
    ensures cron + " root " + command == cron + " " + "root" + " " + command
  {
    assert " root " == " " + "root" + " ";
  }

  lemma CommandStarts(id: string, tail: string)
    ensures |Command(id, tail)| >= 57 && Command(id, tail)[0] == 'c'
  {
    CommandLayout(id, tail);
    assert Command(id, tail)[..35][0] == CD[0] == 'c';
  }

  /** The line of a printable task leads back to its file. */
  lemma LineIsRead(t: Task, tail: string)
    requires Printable(t, tail)
    ensures CommandOf(Line(t, tail)) == Some(Command(t.id, tail))
    ensures TaskName(Command(t.id, tail)) == Some(t.id)
  {
    var command := Command(t.id, tail);
    CommandStarts(t.id, tail);
    CommandIsOneLine(t.id, tail);
    CommandIsRead(t.cron + " ", "root", " ", command);
    LineLayout(t.cron, command);
    NameIsRead(t.id, tail);
  }

  /** What a cron daemon finds in a line is the task: its schedule, without white space at the end, the user root, and
    * a command on the file of the task.
    */
  predicate Schedules(line: string, t: Task) {
    && ScheduleOf(line).Some? && IsTrimmed(ScheduleOf(line).value, t.cron) && UserOf(line) == Some("root")
    && CommandOf(line).Some? && TaskName(CommandOf(line).value) == Some(t.id)
  }

  lemma RootIsUser()
    ensures AllIn("root", WordClass) && AllIn(" ", SpaceClass)
  {
  }

  lemma LineSchedules(t: Task, tail: string)
    requires Printable(t, tail)
    ensures Schedules(Line(t, tail), t)
  {
    var command := Command(t.id, tail);
    LineIsRead(t, tail);
    CommandStarts(t.id, tail);
    CommandIsOneLine(t.id, tail);
    RootIsUser();
    ScheduleIsRead(t.cron + " ", "root", " ", command);
    LineLayout(t.cron, command);
    TrimmedBefore(ScheduleOf(Line(t, tail)).value, t.cron, " ");
  }

  /** White space behind a text makes no difference to the trimmed text. */
  lemma TrimmedBefore(s: string, text: string, gap: string)
    requires IsTrimmed(s, text + gap) && AllIn(gap, SpaceClass)
    ensures IsTrimmed(s, text)
  {
    assert |s| > |text| ==> s[|s| - 1] == gap[|s| - 1 - |text|] && In(gap[|s| - 1 - |text|], SpaceClass);
    assert text[|s|..] == (text + gap)[|s|..][..|text| - |s|];
  }

  // ---------------------------------------------------------------------------------------------------------
  // Lines of a file
  // ---------------------------------------------------------------------------------------------------------

  function LineEnd(text: string): (n: nat)
    ensures n <= |text| && (n < |text| ==> text[n] == '\n')
    ensures forall i :: 0 <= i < n ==> text[i] != '\n'
  {
    if text == [] || text[0] == '\n' then 0 else 1 + LineEnd(text[1..])
  }

  /** Skips white space, then reads up to the end of the line, until nothing is left. */
  function ReadLines(text: string): seq<string>
    decreases |text|
  {
    var t := text[Span(text, SpaceClass)..];
    if t == [] then []
    else
      var n := LineEnd(t);
      [t[..n]] + ReadLines(t[if n < |t| then n + 1 else n..])
  }

  lemma LineIsSplit(line: string, rest: string)
    requires line != [] && !Space(line[0]) && OneLine(line)
    ensures ReadLines(line + "\n" + rest) == [line] + ReadLines(rest)
  {
    var text := line + "\n" + rest;
    assert text[0] == line[0];
    assert Span(text, SpaceClass) == 0 && text[0..] == text;
    var n := LineEnd(text);
    forall i | 0 <= i < |line|
      ensures text[i] != '\n'
    {
      assert text[i] == line[i];
    }
    assert text[|line|] == '\n';
    assert n == |line|;
    assert text[..n] == line && text[n + 1..] == rest;
  }

  // ---------------------------------------------------------------------------------------------------------
  // Loading the list
  // ---------------------------------------------------------------------------------------------------------

  /** The task that a line stands for, if it is a cron line and its file exists. */
  function LoadLine(line: string, files: map<string, Task>): seq<Task> {
    var command := CommandOf(line);
    if command.None? then []
    else
      var name := TaskName(command.value);
      if name.Some? && name.value in files then [files[name.value]] else []
  }

  function Load(lines: seq<string>, files: map<string, Task>): seq<Task> {
    if lines == [] then [] else LoadLine(lines[0], files) + Load(lines[1..], files)
  }

  /** The first line of a file is loaded before the others. */
  lemma LoadFirst(line: string, more: string, files: map<string, Task>)
    requires line != [] && !Space(line[0]) && OneLine(line)
    ensures Load(ReadLines(line + "\n" + more), files) == LoadLine(line, files) + Load(ReadLines(more), files)
  {
    LineIsSplit(line, more);
    var lines := [line] + ReadLines(more);
    assert lines[0] == line && lines[1..] == ReadLines(more);
  }

  /** The environment settings at the top of the file: the part of each name before a character of no field. */
  const SETTINGS: seq<(string, char, string)> := [
    ("SHELL", '=', "/bin/bash"),
    ("PATH", '=', "/usr/local/sbin:" + "/usr/local/bin:" + "/sbin:/bin:" + "/usr/sbin:/usr/bin"),
    ("MAILTO", '=', "\"\""),
    ("CRON", '_', "TZ=Asia/Shanghai"),
    ("TZ", '=', "Asia/Shanghai")]

  predicate IsSetting(s: (string, char, string)) {
    && s.0 != [] && AllIn(s.0, FieldClass) && OneLine(s.0)
    && !FieldChar(s.1) && !Space(s.1) && OneLine(s.2)
  }

  function SettingsText(settings: seq<(string, char, string)>): string {
    if settings == [] then ""
    else settings[0].0 + [settings[0].1] + settings[0].2 + "\n" + SettingsText(settings[1..])
  }

  lemma {:induction false} SettingsAreNoTasks(
      settings: seq<(string, char, string)>, rest: string, files: map<string, Task>)
    requires forall s :: s in settings ==> IsSetting(s)
    ensures Load(ReadLines(SettingsText(settings) + rest), files) == Load(ReadLines(rest), files)
  {
    if settings == [] {
      assert SettingsText(settings) + rest == rest;
    } else {
      var s := settings[0];
      var line := s.0 + [s.1] + s.2;
      var more := SettingsText(settings[1..]) + rest;
      assert IsSetting(s);
      assert line[0] == s.0[0] && In(s.0[0], FieldClass);
      assert SettingsText(settings) + rest == line + "\n" + more;
      LoadFirst(line, more, files);
      NoCronLine(s.0, s.1, s.2);
      SettingsAreNoTasks(settings[1..], rest, files);
    }
  }

  lemma SettingsAreSettings()
    ensures forall s :: s in SETTINGS ==> IsSetting(s)
  {
    assert OneLine("/usr/local/sbin:") && OneLine("/usr/local/bin:") && OneLine("/usr/sbin:/usr/bin");
    assert OneLine("/sbin:/bin:") && OneLine("/bin/bash") && OneLine("TZ=Asia/Shanghai") && OneLine("Asia/Shanghai");
  }

  function Settings(workDir: string): seq<(string, char, string)> {
    SETTINGS + [("WORK", '_', "DIR=\"" + workDir + "\"")]
  }

  function TaskLines(list: seq<Task>, tail: string): string {
    if list == [] then "" else Line(list[0], tail) + "\n" + TaskLines(list[1..], tail)
  }

  /** The text of the cron file for a list of tasks. */
  function Image(header: string, list: seq<Task>, tail: string): string {
    header + TaskLines(list, tail)
  }

  lemma FirstField(cron: string)
    requires FiveFields(cron + " ")
    ensures cron != [] && !Space(cron[0])
  {
    var s := cron + " ";
    assert SkipField(s).Some?;
    assert Span(s, FieldClass) > 0;
    assert In(s[0], FieldClass);
  }

  /** A printed line is a line of text that starts with a field. */
  lemma LineIsLine(t: Task, tail: string)
    requires Printable(t, tail)
    ensures var line := Line(t, tail); line != [] && !Space(line[0]) && OneLine(line)
  {
    FirstField(t.cron);
    CommandIsOneLine(t.id, tail);
    assert OneLine(" root ");
    assert Line(t, tail)[0] == t.cron[0];
  }

  lemma {:induction false} TaskLinesAreRead(list: seq<Task>, tail: string, files: map<string, Task>)
    requires forall t :: t in list ==> Printable(t, tail) && t.id in files && files[t.id] == t
    ensures Load(ReadLines(TaskLines(list, tail)), files) == list
  {
    if list != [] {
      var t := list[0];
      assert Printable(t, tail) && t.id in files && files[t.id] == t;
      LineIsLine(t, tail);
      LineIsRead(t, tail);
      assert LoadLine(Line(t, tail), files) == [t];
      LoadFirst(Line(t, tail), TaskLines(list[1..], tail), files);
      TaskLinesAreRead(list[1..], tail, files);
      assert [t] + list[1..] == list;
    }
  }

  /** The cron lines among some lines. */
  function Jobs(lines: seq<string>): seq<string> {
    if lines == [] then []
    else (if CommandOf(lines[0]).None? then [] else [lines[0]]) + Jobs(lines[1..])
  }

  /** The jobs are those of the tasks, one for each, in order. */
  predicate AllScheduled(jobs: seq<string>, list: seq<Task>) {
    |jobs| == |list| && forall k :: 0 <= k < |list| ==> Schedules(jobs[k], list[k])
  }

  /** The first line of a file, and whether it is a job. */
  lemma JobFirst(line: string, more: string)
    requires line != [] && !Space(line[0]) && OneLine(line)
    ensures Jobs(ReadLines(line + "\n" + more))
            == (if CommandOf(line).None? then [] else [line]) + Jobs(ReadLines(more))
  {
    LineIsSplit(line, more);
    var lines := [line] + ReadLines(more);
    assert lines[0] == line && lines[1..] == ReadLines(more);
  }

  lemma {:induction false} SettingsAreNoJobs(settings: seq<(string, char, string)>, rest: string)
    requires forall s :: s in settings ==> IsSetting(s)
    ensures Jobs(ReadLines(SettingsText(settings) + rest)) == Jobs(ReadLines(rest))
  {
    if settings == [] {
      assert SettingsText(settings) + rest == rest;
    } else {
      var s := settings[0];
      var line := s.0 + [s.1] + s.2;
      var more := SettingsText(settings[1..]) + rest;
      assert IsSetting(s);
      assert line[0] == s.0[0] && In(s.0[0], FieldClass);
      assert SettingsText(settings) + rest == line + "\n" + more;
      JobFirst(line, more);
      NoCronLine(s.0, s.1, s.2);
      SettingsAreNoJobs(settings[1..], rest);
    }
  }

  lemma ScheduledFirst(line: string, jobs: seq<string>, t: Task, list: seq<Task>)
    requires Schedules(line, t) && AllScheduled(jobs, list)
    ensures AllScheduled([line] + jobs, [t] + list)
  {
  }

  lemma {:induction false} TasksAreJobs(list: seq<Task>, tail: string)
    requires forall t :: t in list ==> Printable(t, tail)
    ensures AllScheduled(Jobs(ReadLines(TaskLines(list, tail))), list)
  {
    if list == [] {
      assert ReadLines("") == [];
    } else {
      var line, more := Line(list[0], tail), TaskLines(list[1..], tail);
      LineIsLine(list[0], tail);
      LineSchedules(list[0], tail);
      JobFirst(line, more);
      TasksAreJobs(list[1..], tail);
      ScheduledFirst(line, Jobs(ReadLines(more)), list[0], list[1..]);
      assert [list[0]] + list[1..] == list;
    }
  }

  /** The jobs of the cron file are exactly those of the tasks, each with the schedule of its task. */
  lemma ImageIsScheduled(list: seq<Task>, workDir: string, tail: string)
    requires OneLine(workDir) && forall t :: t in list ==> Printable(t, tail)
    ensures AllScheduled(Jobs(ReadLines(Image(SettingsText(Settings(workDir)), list, tail))), list)
  {
    SettingsAreSettings();
    assert IsSetting(("WORK", '_', "DIR=\"" + workDir + "\""));
    SettingsAreNoJobs(Settings(workDir), TaskLines(list, tail));
    TasksAreJobs(list, tail);
  }

  /** What is written is loaded back as the same list, whatever other task files there are. */
  lemma ImageIsLoaded(list: seq<Task>, workDir: string, tail: string, files: map<string, Task>)
    requires OneLine(workDir)
    requires forall t :: t in list ==> Printable(t, tail) && t.id in files && files[t.id] == t
    ensures Load(ReadLines(Image(SettingsText(Settings(workDir)), list, tail)), files) == list
  {
    SettingsAreSettings();
    assert IsSetting(("WORK", '_', "DIR=\"" + workDir + "\""));
    SettingsAreNoTasks(Settings(workDir), TaskLines(list, tail), files);
    TaskLinesAreRead(list, tail, files);
  }

  // ---------------------------------------------------------------------------------------------------------
  // The list
  // ---------------------------------------------------------------------------------------------------------

  predicate UniqueIds(list: seq<Task>) {
    forall i, j :: 0 <= i < j < |list| ==> list[i].id != list[j].id
  }

  /** The tasks with other ids, in order. */
  function Others(list: seq<Task>, id: string): seq<Task> {
    if list == [] then []
    else if list[0].id == id then Others(list[1..], id)
    else [list[0]] + Others(list[1..], id)
  }

  /** The position of a task, or the length of the list. */
  function Position(list: seq<Task>, id: string): (r: nat)
    ensures r <= |list| && (r < |list| ==> list[r].id == id)
    ensures forall j :: 0 <= j < r ==> list[j].id != id
  {
    if list == [] || list[0].id == id then 0 else 1 + Position(list[1..], id)
  }

  lemma {:induction false} OthersAreAll(list: seq<Task>, id: string)
    requires forall t :: t in list ==> t.id != id
    ensures Others(list, id) == list
  {
    if list != [] {
      OthersAreAll(list[1..], id);
    }
  }

  /** Erasing the task with an id leaves exactly the others, in order. */
  lemma {:induction false} Erased(list: seq<Task>, k: nat)
    requires UniqueIds(list) && k < |list|
    ensures list[..k] + list[k + 1..] == Others(list, list[k].id)
  {
    if k == 0 {
      OthersAreAll(list[1..], list[0].id);
    } else {
      Erased(list[1..], k - 1);
      assert list[..k] + list[k + 1..] == [list[0]] + (list[1..][..k - 1] + list[1..][k..]);
    }
  }

  lemma {:induction false} OthersMembers(list: seq<Task>, id: string)
    ensures forall t :: t in Others(list, id) <==> t in list && t.id != id
    ensures UniqueIds(list) ==> UniqueIds(Others(list, id))
  {
    if list != [] {
      OthersMembers(list[1..], id);
      var o := Others(list[1..], id);
      assert forall j :: 0 <= j < |o| ==> o[j] in list[1..];
    }
  }

  lemma {:induction false} OthersConcat(a: seq<Task>, b: seq<Task>, id: string)
    ensures Others(a + b, id) == Others(a, id) + Others(b, id)
  {
    if a == [] {
      assert a + b == b;
    } else {
      OthersConcat(a[1..], b, id);
      assert (a + b)[0] == a[0] && (a + b)[1..] == a[1..] + b;
      Assoc([a[0]], Others(a[1..], id), Others(b, id));
    }
  }

  /** The list with a task added at the end, in place of the one with the same id. */
  function Added(list: seq<Task>, t: Task): seq<Task> {
    Others(list, t.id) + [t.(kind := 3)]
  }

  lemma AddedMeaning(list: seq<Task>, t: Task)
    requires UniqueIds(list)
    ensures UniqueIds(Added(list, t)) && Others(Added(list, t), t.id) == Others(list, t.id)
    ensures forall u :: u in Added(list, t) && u.id == t.id <==> u == t.(kind := 3)
  {
    OthersMembers(list, t.id);
    var o, added := Others(list, t.id), t.(kind := 3);
    forall j | 0 <= j < |o|
      ensures o[j].id != t.id
    {
      assert o[j] in o;
    }
    OthersConcat(o, [added], t.id);
    OthersAreAll(o, t.id);
    assert Added(list, t)[|o|] == added;
  }

  /** The task files after those of a list have been written. */
  function WithFiles(files: map<string, Task>, list: seq<Task>): map<string, Task> {
    if list == [] then files
    else WithFiles(files, list[..|list| - 1])[list[|list| - 1].id := list[|list| - 1]]
  }

  lemma {:induction false} WithFilesHas(files: map<string, Task>, list: seq<Task>)
    requires UniqueIds(list)
    ensures forall t :: t in list ==> t.id in WithFiles(files, list) && WithFiles(files, list)[t.id] == t
  {
    if list != [] {
      WithFilesHas(files, list[..|list| - 1]);
    }
  }

  lemma {:induction false} WithFilesSame(files: map<string, Task>, list: seq<Task>)
    requires forall t :: t in list ==> t.id in files && files[t.id] == t
    ensures WithFiles(files, list) == files
  {
    if list != [] {
      WithFilesSame(files, list[..|list| - 1]);
      assert list[|list| - 1] in list;
    }
  }

  // ---------------------------------------------------------------------------------------------------------
  // The set
  // ---------------------------------------------------------------------------------------------------------

  /** The cron file and the directory of task files. */
  class Disk {
    var cron: string
    var files: map<string, Task>

    constructor ()
      ensures cron == "" && files == map[]
    {
      cron, files := "", map[];
    }
  }

  lemma LoadStep(lines: seq<string>, i: nat, files: map<string, Task>, list: seq<Task>)
    requires i < |lines| && list + Load(lines[i..], files) == Load(lines, files)
    ensures list + LoadLine(lines[i], files) + Load(lines[i + 1..], files) == Load(lines, files)
  {
    assert lines[i..][0] == lines[i] && lines[i..][1..] == lines[i + 1..];
    Assoc(list, LoadLine(lines[i], files), Load(lines[i + 1..], files));
  }

  /** Reads the lines of the cron file one by one. */
  method LoadList(cron: string, files: map<string, Task>) returns (list: seq<Task>)
    ensures list == Load(ReadLines(cron), files)
  {
    list := [];
    var lines := ReadLines(cron);
    for i := 0 to |lines|
      invariant list + Load(lines[i..], files) == Load(lines, files)
    {
      LoadStep(lines, i, files, list);
      ghost var found := LoadLine(lines[i], files);
      var command := CommandOf(lines[i]);
      if command.Some? {
        var name := TaskName(command.value);
        if name.Some? && name.value in files {
          assert found == [files[name.value]];
          list := list + [files[name.value]];
        }
      }
    }
  }

  lemma WriteStep(list: seq<Task>, i: nat, tail: string, text: string, files: map<string, Task>)
    requires i < |list|
    ensures text + TaskLines(list[i..], tail) == text + Line(list[i], tail) + "\n" + TaskLines(list[i + 1..], tail)
    ensures WithFiles(files, list[..i + 1]) == WithFiles(files, list[..i])[list[i].id := list[i]]
  {
    assert list[i..][0] == list[i] && list[i..][1..] == list[i + 1..];
    assert list[..i + 1][..i] == list[..i];
  }

  class TimedTaskSet {
    const disk: Disk
    const workDir: string
    const header: string
    const tail: string
    var list: seq<Task>

    /** Ids are unique and the files are those of the list. */
    ghost predicate Valid()
      reads this, disk
    {
      && UniqueIds(list) && disk.cron == Image(header, list, tail)
      && forall t :: t in list ==> t.id in disk.files && disk.files[t.id] == t
    }

    /** Loads the list from the files of an earlier run and writes them again. */
    constructor (disk: Disk, workDir: string, tail: string)
      modifies disk
      ensures this.disk == disk && header == SettingsText(Settings(workDir)) && this.tail == tail
      ensures this.workDir == workDir
      ensures list == Load(ReadLines(old(disk.cron)), old(disk.files))
      ensures disk.cron == Image(header, list, tail) && disk.files == WithFiles(old(disk.files), list)
      ensures UniqueIds(list) ==> Valid()
    {
      this.disk, this.workDir, header, this.tail := disk, workDir, SettingsText(Settings(workDir)), tail;
      list := [];
      new;
      list := LoadList(disk.cron, disk.files);
      if UniqueIds(list) {
        WithFilesHas(disk.files, list);
      }
      UpdateFile();
    }

    /** The header is the one of the constructor, and everything can be written on one line. */
    ghost predicate Writable()
      reads this
    {
      header == SettingsText(Settings(workDir)) && OneLine(workDir) && forall t :: t in list ==> Printable(t, tail)
    }

    /** Writes the cron file and the file of every task; files of other tasks stay. The cron file then has a job for
      * each task, with the schedule of the task.
      */
    method UpdateFile()
      modifies disk
      ensures disk.cron == Image(header, list, tail) && disk.files == WithFiles(old(disk.files), list)
      ensures Writable() ==> AllScheduled(Jobs(ReadLines(disk.cron)), list)
    {
      ghost var files := disk.files;
      disk.cron := header;
      for i := 0 to |list|
        invariant disk.cron + TaskLines(list[i..], tail) == header + TaskLines(list, tail)
        invariant disk.files == WithFiles(files, list[..i])
      {
        WriteStep(list, i, tail, disk.cron, files);
        disk.cron := disk.cron + Line(list[i], tail) + "\n";
        disk.files := disk.files[list[i].id := list[i]];
      }
      assert list[..|list|] == list;
      if Writable() {
        ImageIsScheduled(list, workDir, tail);
      }
    }

    /** Adds a task at the end, or replaces the one with the same id. */
    method AddTimedTask(task: Task)
      requires Valid()
      modifies this`list, disk
      ensures Valid() && list == Added(old(list), task)
      ensures disk.files == WithFiles(old(disk.files), list)
    {
      var t := task.(kind := 3);
      AddedMeaning(list, task);
      var it: nat := 0;
      while it < |list|
        invariant it <= |list| && list == old(list) && forall j :: 0 <= j < it ==> list[j].id != t.id
      {
        if list[it].id == t.id {
          Erased(list, it);
          list := list[..it] + list[it + 1..];
          break;
        }
        it := it + 1;
      }
      if it == |old(list)| {
        OthersAreAll(old(list), t.id);
      }
      list := list + [t];
      WithFilesHas(disk.files, list);
      UpdateFile();
    }

    /** Deletes the task with an id from the list and the cron file; its own file stays. */
    method DelTimedTask(id: string)
      requires Valid()
      modifies this`list, disk
      ensures Valid() && list == Others(old(list), id) && disk.files == old(disk.files)
    {
      OthersMembers(list, id);
      for it := 0 to |list|
        invariant list == old(list) && disk.cron == old(disk.cron) && disk.files == old(disk.files)
        invariant forall j :: 0 <= j < it ==> list[j].id != id
      {
        if list[it].id == id {
          Erased(list, it);
          list := list[..it] + list[it + 1..];
          WithFilesSame(disk.files, list);
          UpdateFile();
          return;
        }
      }
      OthersAreAll(list, id);
    }

    /** The part of the completion callback for a task that has ended; false means that it throws. */
    method TaskEnded(id: string, executedCount: int, maxCount: int) returns (ok: bool)
      requires Valid()
      modifies this`list, disk
      ensures Valid() && AfterRun(old(list), id, executedCount, maxCount) == if ok then Some(list) else None
      ensures !ok ==> list == old(list)
    {
      for i := 0 to |list|
        invariant list == old(list) && forall j :: 0 <= j < i ==> list[j].id != id
        invariant disk.cron == old(disk.cron) && disk.files == old(disk.files)
      {
        if list[i].id == id {
          assert Position(list, id) == i;
          if executedCount >= maxCount {
            DelTimedTask(id);
          } else if list[i].executed.None? {
            return false;
          } else {
            AddTimedTask(list[i].(executed := Some(executedCount)));
          }
          return true;
        }
      }
      ok := true;
    }
  }

  /** A restart loads the list that the set had, if its tasks can be printed. */
  lemma RestartLoadsTheList(tasks: TimedTaskSet, workDir: string)
    requires tasks.Valid() && tasks.header == SettingsText(Settings(workDir)) && OneLine(workDir)
    requires forall t :: t in tasks.list ==> Printable(t, tasks.tail)
    ensures Load(ReadLines(tasks.disk.cron), tasks.disk.files) == tasks.list
  {
    ImageIsLoaded(tasks.list, workDir, tasks.tail, tasks.disk.files);
  }

  // ---------------------------------------------------------------------------------------------------------
  // The quota
  // ---------------------------------------------------------------------------------------------------------

  /** What the end of a run makes of the list; None if the stored task has no count to update. */
  function AfterRun(list: seq<Task>, id: string, executedCount: int, maxCount: int): Option<seq<Task>> {
    var k := Position(list, id);
    if k == |list| then Some(list)
    else if executedCount >= maxCount then Some(Others(list, id))
    else if list[k].executed.None? then None
    else Some(Added(list, list[k].(executed := Some(executedCount))))
  }

  function ExecutedOf(t: Task): int {
    if t.executed.None? then 0 else t.executed.value
  }

  function MaxOf(t: Task): int {
    if t.maxCount.None? then 1 else t.maxCount.value
  }

  /** A stored task is delivered and run once to its end; None if it is refused or the callback throws. */
  function Delivered(list: seq<Task>, id: string): Option<seq<Task>> {
    var k := Position(list, id);
    if k == |list| then None
    else
      var t := list[k];
      if ExecutedOf(t) >= MaxOf(t) then None else AfterRun(list, id, ExecutedOf(t) + 1, MaxOf(t))
  }

  /** The list after `n` deliveries of a task, each run to its end. */
  function DeliveredTimes(list: seq<Task>, id: string, n: nat): Option<seq<Task>>
    decreases n
  {
    if n == 0 then Some(list)
    else
      var next := Delivered(list, id);
      if next.None? then None else DeliveredTimes(next.value, id, n - 1)
  }

  /** The list has one task with an id and a count, which is below its maximum. */
  predicate Counted(list: seq<Task>, id: string, executed: int, maxCount: int) {
    var k := Position(list, id);
    && UniqueIds(list) && k < |list| && list[k].executed == Some(executed) && MaxOf(list[k]) == maxCount
    && executed < maxCount
  }

  /** After some runs the task has a count, or is gone if the count is the maximum; the others stay in order. */
  predicate HasCount(list: seq<Task>, id: string, count: int, maxCount: int, after: seq<Task>) {
    && UniqueIds(after) && Others(after, id) == Others(list, id)
    && (count < maxCount ==> Counted(after, id, count, maxCount))
    && (count == maxCount ==> Position(after, id) == |after|)
  }

  /** One run raises the stored count by one, or removes the task if the maximum is reached; others stay in order. */
  lemma OneRun(list: seq<Task>, id: string, executed: int, maxCount: int)
    requires Counted(list, id, executed, maxCount)
    ensures Delivered(list, id).Some? && HasCount(list, id, executed + 1, maxCount, Delivered(list, id).value)
  {
    var k := Position(list, id);
    var t := list[k].(executed := Some(executed + 1));
    OthersMembers(list, id);
    if executed + 1 < maxCount {
      AddedMeaning(list, t);
      var next := Added(list, t);
      assert next[|next| - 1] == t.(kind := 3);
      var p := Position(next, id);
      assert p < |next| && next[p] in next;
    } else {
      var next := Others(list, id);
      assert forall j :: 0 <= j < |next| ==> next[j] in next;
      OthersAreAll(next, id);
    }
  }

  /** The stored count rises strictly and stays below the maximum; the task goes exactly at the run that reaches it. */
  lemma {:induction false} QuotaIsKept(list: seq<Task>, id: string, executed: int, maxCount: int, n: nat)
    requires Counted(list, id, executed, maxCount) && executed + n <= maxCount
    ensures DeliveredTimes(list, id, n).Some?
    ensures HasCount(list, id, executed + n, maxCount, DeliveredTimes(list, id, n).value)
    decreases n
  {
    if n > 0 {
      OneRun(list, id, executed, maxCount);
      var next := Delivered(list, id).value;
      assert DeliveredTimes(list, id, n) == DeliveredTimes(next, id, n - 1);
      if executed + 1 < maxCount {
        QuotaIsKept(next, id, executed + 1, maxCount, n - 1);
      }
    }
  }

  /**
   * A task whose count is below its maximum can be run until the maximum is reached exactly if its count is stored,
   * or one run is all it is allowed: the callback updates a count but does not add one.
   */
  lemma QuotaNeedsCount(list: seq<Task>, id: string)
    requires UniqueIds(list) && Position(list, id) < |list|
    requires var t := list[Position(list, id)]; ExecutedOf(t) < MaxOf(t)
    ensures var t := list[Position(list, id)];
      DeliveredTimes(list, id, MaxOf(t) - ExecutedOf(t)).Some? <==> t.executed.Some? || MaxOf(t) == 1
  {
    var t := list[Position(list, id)];
    if t.executed.Some? {
      QuotaIsKept(list, id, ExecutedOf(t), MaxOf(t), MaxOf(t) - ExecutedOf(t));
    } else if MaxOf(t) == 1 {
      assert DeliveredTimes(Others(list, id), id, 0).Some?;
    }
  }
}
