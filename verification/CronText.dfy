/** The text of the cron file of timed tasks (`timed_task.cpp`): how lines are written and read back. */
module CronText {
  import opened Basics

  // ---------------------------------------------------------------------------------------------------------
  // Character classes of the two regular expressions
  // ---------------------------------------------------------------------------------------------------------

  predicate Space(c: char) {
    c == ' ' || '\t' <= c <= '\r'
  }

  predicate Alphanumeric(c: char) {
    'a' <= c <= 'z' || 'A' <= c <= 'Z' || '0' <= c <= '9'
  }

  /** A character of a cron field. */
  predicate FieldChar(c: char) {
    Alphanumeric(c) || c == '-' || c == '*' || c == '?' || c == '/' || c == ','
  }

  predicate WordChar(c: char) {
    Alphanumeric(c) || c == '_'
  }

  predicate EndsLine(c: char) {
    c == '\n' || c == '\r'
  }

  predicate OneLine(s: string) {
    forall i :: 0 <= i < |s| ==> !EndsLine(s[i])
  }

  datatype Class = FieldClass | SpaceClass | WordClass

  predicate In(c: char, cls: Class) {
    match cls
    case FieldClass => FieldChar(c)
    case SpaceClass => Space(c)
    case WordClass => WordChar(c)
  }

  predicate AllIn(s: string, cls: Class) {
    forall i :: 0 <= i < |s| ==> In(s[i], cls)
  }

  /** The length of the longest prefix of characters of a class. */
  function Span(s: string, cls: Class): (n: nat)
    ensures n <= |s|
  {
    if s == [] || !In(s[0], cls) then 0 else 1 + Span(s[1..], cls)
  }

  lemma {:induction false} SpanMeans(s: string, cls: Class)
    ensures var n := Span(s, cls); AllIn(s[..n], cls) && (n < |s| ==> !In(s[n], cls))
  {
    if s != [] && In(s[0], cls) {
      SpanMeans(s[1..], cls);
      var n := Span(s[1..], cls);
      assert s[..1 + n] == [s[0]] + s[1..][..n];
    }
  }

  lemma {:induction false} SpanIs(a: string, rest: string, cls: Class)
    requires AllIn(a, cls) && (rest == [] || !In(rest[0], cls))
    ensures Span(a + rest, cls) == |a|
    decreases a
  {
    if a == [] {
      assert a + rest == rest;
    } else {
      assert (a + rest)[0] == a[0] && (a + rest)[1..] == a[1..] + rest;
      SpanIs(a[1..], rest, cls);
    }
  }

  // ---------------------------------------------------------------------------------------------------------
  // The first expression: five fields, a user of at most 32 word characters, and a command
  // ---------------------------------------------------------------------------------------------------------

  /** Skips a nonempty run of characters of a class. */
  function Skip(s: string, cls: Class): Option<string> {
    var n := Span(s, cls);
    if n == 0 then None else Some(s[n..])
  }

  function SkipField(s: string): Option<string> {
    var t := Skip(s, FieldClass);
    if t.None? then None else Skip(t.value, SpaceClass)
  }

  function SkipFields(s: string, n: nat): Option<string> {
    if n == 0 then Some(s)
    else
      var t := SkipField(s);
      if t.None? then None else SkipFields(t.value, n - 1)
  }

  /** The command after the user; white space alone is not a command. */
  function AfterUser(s: string): Option<string> {
    var n := Span(s, WordClass);
    if n == 0 || n > 32 then None
    else
      var rest := Skip(s[n..], SpaceClass);
      if rest.None? || rest.value == [] || !OneLine(rest.value) then None else rest
  }

  function CommandAfter(line: string, fields: nat): Option<string> {
    var t := SkipFields(line, fields);
    if t.None? then None else AfterUser(t.value)
  }

  /** The command of a cron line. */
  function CommandOf(line: string): Option<string> {
    CommandAfter(line, 5)
  }

  /** The first fields of a line, with the white space between them but not behind. */
  function FirstFields(s: string, n: nat): string {
    if n == 0 then ""
    else
      var f := Span(s, FieldClass);
      if n == 1 then s[..f]
      else
        var g := f + Span(s[f..], SpaceClass);
        s[..g] + FirstFields(s[g..], n - 1)
  }

  /** The schedule of a cron line: its five fields. */
  function ScheduleOf(line: string): Option<string> {
    if CommandOf(line).None? then None else Some(FirstFields(line, 5))
  }

  /** The user of a cron line. */
  function UserOf(line: string): Option<string> {
    var t := SkipFields(line, 5);
    if CommandOf(line).None? || t.None? then None else Some(t.value[..Span(t.value, WordClass)])
  }

  /** Five fields, each followed by white space. */
  predicate FiveFields(cron: string) {
    Fields(cron, 5)
  }

  predicate Fields(cron: string, n: nat) {
    SkipFields(cron, n) == Some("")
  }

  /** Fields with one space after each. */
  function Spaced(fields: seq<string>): string {
    if fields == [] then "" else fields[0] + (" " + Spaced(fields[1..]))
  }

  /** Any five nonempty fields of accepted characters, separated by spaces, will do. */
  lemma {:induction false} SpacedFields(fields: seq<string>)
    requires forall f :: f in fields ==> f != [] && AllIn(f, FieldClass)
    ensures Fields(Spaced(fields), |fields|)
    ensures Spaced(fields) != [] ==> !Space(Spaced(fields)[0])
  {
    if fields != [] {
      var f, rest := fields[0], Spaced(fields[1..]);
      assert f in fields && forall g :: g in fields[1..] ==> g in fields;
      SpacedFields(fields[1..]);
      OneField(f, rest);
      assert In(f[0], FieldClass);
    }
  }

  lemma OneField(field: string, rest: string)
    requires field != [] && AllIn(field, FieldClass) && (rest != [] ==> !Space(rest[0]))
    ensures SkipField(field + (" " + rest)) == Some(rest)
  {
    var s := field + (" " + rest);
    SpanIs(field, " " + rest, FieldClass);
    SpanIs(" ", rest, SpaceClass);
    assert s[|field|..] == " " + rest && (" " + rest)[1..] == rest;
  }

  lemma SkipAppend(s: string, cls: Class, rest: string)
    requires Skip(s, cls).Some? && (Skip(s, cls).value == [] && rest != [] ==> !In(rest[0], cls))
    ensures Skip(s + rest, cls) == Some(Skip(s, cls).value + rest)
  {
    var n := Span(s, cls);
    SpanMeans(s, cls);
    assert s + rest == s[..n] + (s[n..] + rest);
    SpanIs(s[..n], s[n..] + rest, cls);
  }

  lemma SkipFieldAppend(s: string, rest: string)
    requires SkipField(s).Some? && (rest != [] ==> !Space(rest[0]))
    ensures SkipField(s + rest) == Some(SkipField(s).value + rest)
  {
    var t := Skip(s, FieldClass).value;
    assert Span(t, SpaceClass) > 0;
    SkipAppend(s, FieldClass, rest);
    SkipAppend(t, SpaceClass, rest);
  }

  /** What follows a number of fields does not change how they are read, unless it starts with a space. */
  lemma {:induction false} SkipFieldsAppend(s: string, n: nat, rest: string)
    requires SkipFields(s, n) == Some("") && (rest != [] ==> !Space(rest[0]))
    ensures SkipFields(s + rest, n) == Some(rest)
    decreases n
  {
    if n > 0 {
      SkipFieldAppend(s, rest);
      SkipFieldsAppend(SkipField(s).value, n - 1, rest);
    } else {
      assert s + rest == rest;
    }
  }

  lemma UserIsRead(user: string, gap: string, command: string)
    requires 1 <= |user| <= 32 && AllIn(user, WordClass) && gap != [] && AllIn(gap, SpaceClass)
    requires command != [] && !Space(command[0]) && OneLine(command)
    ensures AfterUser(user + (gap + command)) == Some(command)
  {
    var s := user + (gap + command);
    assert In(gap[0], SpaceClass);
    SpanIs(user, gap + command, WordClass);
    SpanIs(gap, command, SpaceClass);
    assert s[|user|..] == gap + command && (gap + command)[|gap|..] == command;
  }

  lemma CommandIsReadAfter(cron: string, n: nat, user: string, gap: string, command: string)
    requires Fields(cron, n) && 1 <= |user| <= 32 && AllIn(user, WordClass) && gap != [] && AllIn(gap, SpaceClass)
    requires command != [] && !Space(command[0]) && OneLine(command)
    ensures CommandAfter(cron + user + gap + command, n) == Some(command)
  {
    var rest := user + (gap + command);
    assert In(user[0], WordClass);
    SkipFieldsAppend(cron, n, rest);
    UserIsRead(user, gap, command);
    assert cron + user + gap + command == cron + rest;
  }

  /** A line of five fields, a user and a command is read back. */
  lemma CommandIsRead(cron: string, user: string, gap: string, command: string)
    requires FiveFields(cron) && 1 <= |user| <= 32 && AllIn(user, WordClass) && gap != [] && AllIn(gap, SpaceClass)
    requires command != [] && !Space(command[0]) && OneLine(command)
    ensures CommandOf(cron + user + gap + command) == Some(command)
  {
    CommandIsReadAfter(cron, 5, user, gap, command);
  }

  /** A text without the white space at its end. */
  predicate IsTrimmed(s: string, text: string) {
    && s <= text && AllIn(text[|s|..], SpaceClass)
    && (s != [] ==> !Space(s[|s| - 1]))
  }

  /** A field, the white space behind it, and what follows are told apart. */
  lemma FieldIsRead(field: string, gap: string, more: string)
    requires field != [] && AllIn(field, FieldClass) && gap != [] && AllIn(gap, SpaceClass)
    requires more == [] || !Space(more[0])
    ensures var s, t := field + (gap + more), gap + more;
      && Span(s, FieldClass) == |field| && s[|field|..] == t && s[..|field|] == field
      && Span(t, SpaceClass) == |gap| && t[|gap|..] == more && t[..|gap|] == gap
  {
    assert In(gap[0], SpaceClass);
    SpanIs(field, gap + more, FieldClass);
    SpanIs(gap, more, SpaceClass);
  }

  lemma FirstFieldsOf(s: string, n: nat, f: nat, g: nat, t: string, head: string, more: string)
    requires n > 1 && f == Span(s, FieldClass) && t == s[f..] && g == Span(t, SpaceClass)
    requires f + g <= |s| && head == s[..f + g] && more == s[f + g..]
    ensures FirstFields(s, n) == head + FirstFields(more, n - 1)
  {
  }

  lemma Pieces(field: string, gap: string, more: string)
    ensures var s, g := field + (gap + more), |field| + |gap|;
      s[..g] == field + gap && s[g..] == more
  {
  }

  lemma FirstFieldsStep(field: string, gap: string, more: string, n: nat)
    requires field != [] && AllIn(field, FieldClass) && gap != [] && AllIn(gap, SpaceClass)
    requires (more == [] || !Space(more[0])) && n > 1
    ensures FirstFields(field + (gap + more), n) == field + (gap + FirstFields(more, n - 1))
  {
    FieldIsRead(field, gap, more);
    Pieces(field, gap, more);
    FirstFieldsOf(field + (gap + more), n, |field|, |gap|, gap + more, field + gap, more);
    Assoc(field, gap, FirstFields(more, n - 1));
  }

  /** The first field of a text, the white space behind it, and the rest. */
  lemma FieldPieces(cron: string) returns (field: string, gap: string, more: string)
    requires SkipField(cron).Some?
    ensures cron == field + (gap + more) && SkipField(cron) == Some(more)
    ensures field != [] && AllIn(field, FieldClass) && gap != [] && AllIn(gap, SpaceClass)
    ensures more == [] || !Space(more[0])
  {
    var f := Span(cron, FieldClass);
    var t := cron[f..];
    var g := Span(t, SpaceClass);
    SpanMeans(cron, FieldClass);
    SpanMeans(t, SpaceClass);
    field, gap, more := cron[..f], t[..g], t[g..];
    assert more != [] ==> !In(more[0], SpaceClass);
  }

  lemma TrimmedBehind(front: string, s: string, text: string)
    requires IsTrimmed(s, text) && s != []
    ensures IsTrimmed(front + s, front + text)
  {
    assert (front + text)[|front + s|..] == text[|s|..];
  }

  lemma FieldsStart(cron: string, n: nat)
    requires n > 0 && SkipFields(cron, n).Some?
    ensures SkipField(cron).Some? && cron != [] && !Space(cron[0])
    ensures SkipFields(cron, n) == SkipFields(SkipField(cron).value, n - 1)
  {
    assert Span(cron, FieldClass) > 0;
    assert In(cron[0], FieldClass);
  }

  lemma LastField(field: string, gap: string, rest: string)
    requires field != [] && AllIn(field, FieldClass) && gap != [] && AllIn(gap, SpaceClass)
    requires rest == [] || !Space(rest[0])
    ensures FirstFields(field + (gap + rest), 1) == field && IsTrimmed(field, field + gap)
  {
    FieldIsRead(field, gap, rest);
    assert (field + gap)[|field|..] == gap && In(field[|field| - 1], FieldClass);
  }

  lemma MoreFields(field: string, gap: string, more: string, rest: string, n: nat)
    requires field != [] && AllIn(field, FieldClass) && gap != [] && AllIn(gap, SpaceClass)
    requires more != [] && !Space(more[0]) && n > 1
    requires IsTrimmed(FirstFields(more + rest, n - 1), more) && FirstFields(more + rest, n - 1) != []
    ensures var first := FirstFields(field + (gap + (more + rest)), n);
      IsTrimmed(first, field + (gap + more)) && first != []
  {
    FirstFieldsStep(field, gap, more + rest, n);
    TrimmedBehind(gap, FirstFields(more + rest, n - 1), more);
    TrimmedBehind(field, gap + FirstFields(more + rest, n - 1), gap + more);
  }

  lemma Regroup(field: string, gap: string, more: string, rest: string)
    ensures field + (gap + more) + rest == field + (gap + (more + rest))
  {
    Assoc(field, gap + more, rest);
    Assoc(gap, more, rest);
  }

  /** The fields are read back, but for white space behind them. */
  lemma {:induction false} FieldsAreRead(cron: string, n: nat, rest: string)
    requires n > 0 && Fields(cron, n) && (rest == [] || !Space(rest[0]))
    ensures IsTrimmed(FirstFields(cron + rest, n), cron) && FirstFields(cron + rest, n) != []
    decreases n
  {
    FieldsStart(cron, n);
    var field, gap, more := FieldPieces(cron);
    if n == 1 {
      assert more == [] && gap + more == gap;
      Assoc(field, gap, rest);
      LastField(field, gap, rest);
    } else {
      FieldsStart(more, n - 1);
      FieldsAreRead(more, n - 1, rest);
      MoreFields(field, gap, more, rest, n);
      Regroup(field, gap, more, rest);
    }
  }

  lemma UserComesNext(cron: string, user: string, rest: string)
    requires FiveFields(cron) && user != [] && AllIn(user, WordClass) && rest != [] && Space(rest[0])
    ensures SkipFields(cron + (user + rest), 5) == Some(user + rest) && Span(user + rest, WordClass) == |user|
    ensures (user + rest)[..|user|] == user
  {
    assert In(user[0], WordClass);
    SkipFieldsAppend(cron, 5, user + rest);
    SpanIs(user, rest, WordClass);
  }

  /** Schedule and user of a cron line. */
  lemma ScheduleIsRead(cron: string, user: string, gap: string, command: string)
    requires FiveFields(cron) && 1 <= |user| <= 32 && AllIn(user, WordClass) && gap != [] && AllIn(gap, SpaceClass)
    requires command != [] && !Space(command[0]) && OneLine(command)
    ensures var line := cron + user + gap + command;
      && ScheduleOf(line).Some? && IsTrimmed(ScheduleOf(line).value, cron) && UserOf(line) == Some(user)
  {
    var line, rest := cron + user + gap + command, user + (gap + command);
    assert In(user[0], WordClass) && In(gap[0], SpaceClass);
    assert line == cron + rest;
    CommandIsRead(cron, user, gap, command);
    UserComesNext(cron, user, gap + command);
    FieldsAreRead(cron, 5, rest);
    assert ScheduleOf(line) == Some(FirstFields(cron + rest, 5));
  }

  /** A line is no cron line if its first run of field characters is not followed by white space. */
  lemma NoCronLine(name: string, c: char, rest: string)
    requires AllIn(name, FieldClass) && !FieldChar(c) && !Space(c)
    ensures CommandOf(name + [c] + rest) == None
  {
    NoCronLineAfter(name, c, rest, 5);
  }

  lemma NoCronLineAfter(name: string, c: char, rest: string, n: nat)
    requires AllIn(name, FieldClass) && !FieldChar(c) && !Space(c) && n > 0
    ensures CommandAfter(name + [c] + rest, n) == None
  {
    var line := name + ([c] + rest);
    assert line == name + [c] + rest;
    SpanIs(name, [c] + rest, FieldClass);
    assert line[|name|..] == [c] + rest;
    assert SkipField(line) == None;
  }

  // ---------------------------------------------------------------------------------------------------------
  // The second expression: the name of the task file in a command
  // ---------------------------------------------------------------------------------------------------------

  const DIRECTORY := "./timed_task/"
  const SUFFIX := ".json"

  /** "cat", one white space character, and the directory are at a position. */
  predicate CatAt(s: string, i: nat) {
    i + 17 <= |s| && s[i..i + 3] == "cat" && Space(s[i + 3]) && s[i + 4..i + 17] == DIRECTORY
  }

  predicate SuffixAt(s: string, j: nat) {
    j + 5 <= |s| && s[j..j + 5] == SUFFIX
  }

  /** The name between `i` and `j`: the first part is matched lazily, the name itself greedily. */
  ghost predicate Extracts(s: string, i: nat, j: nat) {
    && CatAt(s, i) && SuffixAt(s, j) && i + 17 <= j
    && (forall k: nat :: j < k ==> !SuffixAt(s, k))
    && (forall h: nat :: h < i ==> !CatAt(s, h))
  }

  /** The last position of the suffix from a position on, or the length if there is none. */
  function LastSuffix(s: string, from: nat): (j: nat)
    requires from <= |s|
    ensures j < |s| ==> from <= j && SuffixAt(s, j)
    ensures forall k: nat :: from <= k && (j == |s| || j < k) ==> !SuffixAt(s, k)
    decreases |s| - from
  {
    if from == |s| then |s|
    else
      var j := LastSuffix(s, from + 1);
      if j < |s| then j else if SuffixAt(s, from) then from else |s|
  }

  /** The first position of the directory, or the length if there is none. */
  function FirstCat(s: string, from: nat): (i: nat)
    requires from <= |s|
    ensures from <= i <= |s| && (i < |s| ==> CatAt(s, i))
    ensures forall h: nat :: from <= h < i ==> !CatAt(s, h)
    decreases |s| - from
  {
    if from == |s| || CatAt(s, from) then from else FirstCat(s, from + 1)
  }

  /** The name of the task file, without its suffix. */
  function TaskName(command: string): Option<string> {
    var i := FirstCat(command, 0);
    if !OneLine(command) || i + 17 > |command| then None
    else
      var j := LastSuffix(command, i + 17);
      if j == |command| then None else Some(command[i + 17..j])
  }

  lemma TaskNameMeaning(command: string, i: nat, j: nat)
    requires OneLine(command) && Extracts(command, i, j)
    ensures TaskName(command) == Some(command[i + 17..j])
  {
    var first := FirstCat(command, 0);
    assert first == i;
    var last := LastSuffix(command, i + 17);
    assert last == j;
  }
}
