/**
 Splitting a command line for direct execution (do_exec3 in doio.c): when a shell is not needed, the
 line is cut at its blanks into an argument vector of a size fixed beforehand.
 */
module CommandLine {
  import opened Basics

  predicate IsSpace(c: char) {
    c == ' ' || c == '\t' || c == '\n' || c == '\r' || c == '\U{0C}'
  }

  predicate IsAlnum(c: char) {
    'A' <= c <= 'Z' || 'a' <= c <= 'z' || '0' <= c <= '9' || c == '_'
  }

  predicate IsMeta(c: char) {
    || c == '$' || c == '&' || c == '*' || c == '(' || c == ')' || c == '{' || c == '}' || c == '[' || c == ']'
    || c == '\'' || c == '\"' || c == ';' || c == '\\' || c == '|' || c == '?' || c == '<' || c == '>' || c == '~'
    || c == '`' || c == '\n'
  }

  /** A C string: no NUL inside. */
  predicate IsText(s: string) {
    forall i :: 0 <= i < |s| ==> s[i] != '\0'
  }

  predicate Blank(s: string) {
    forall i :: 0 <= i < |s| ==> IsSpace(s[i])
  }

  predicate Solid(s: string) {
    s != [] && forall i :: 0 <= i < |s| ==> !IsSpace(s[i])
  }

  predicate Plain(s: string) {
    forall i :: 0 <= i < |s| ==> !IsMeta(s[i])
  }

  // ---------------------------------------------------------------- words

  /** How many characters at the front are not blanks. */
  function WordLen(s: string): (n: nat)
    ensures n <= |s| && (forall i :: 0 <= i < n ==> !IsSpace(s[i])) && (n < |s| ==> IsSpace(s[n]))
  {
    if s == [] || IsSpace(s[0]) then 0 else 1 + WordLen(s[1..])
  }

  /** The maximal runs of characters that are not blanks. */
  function Words(s: string): seq<string>
    decreases |s|
  {
    if s == [] then []
    else if IsSpace(s[0]) then Words(s[1..])
    else [s[..WordLen(s)]] + Words(s[WordLen(s)..])
  }

  lemma WordLenUnique(s: string, n: nat)
    requires n <= |s| && (forall i :: 0 <= i < n ==> !IsSpace(s[i])) && (n < |s| ==> IsSpace(s[n]))
    ensures n == WordLen(s)
  {
  }

  lemma {:induction false} BlankHasNoWords(s: string)
    requires Blank(s)
    ensures Words(s) == []
  {
    if s != [] {
      BlankHasNoWords(s[1..]);
    }
  }

  lemma SolidIsOneWord(s: string)
    requires Solid(s)
    ensures Words(s) == [s]
  {
    WordLenUnique(s, |s|);
    assert s[..|s|] == s && Words(s[|s|..]) == [];
  }

  /** A blank separates.  With the two lemmas above this determines the words of every line. */
  lemma {:induction false} BlankSeparates(a: string, c: char, b: string)
    requires IsSpace(c)
    ensures Words(a + [c] + b) == Words(a) + Words(b)
    decreases |a|
  {
    var s := a + [c] + b;
    if a == [] {
      assert s[1..] == b;
    } else if IsSpace(a[0]) {
      assert s[1..] == a[1..] + [c] + b;
      BlankSeparates(a[1..], c, b);
    } else {
      var n := WordLen(a);
      assert n < |a| ==> s[n] == a[n];
      assert n == |a| ==> s[n] == c;
      WordLenUnique(s, n);
      assert s[n..] == a[n..] + [c] + b;
      assert s[..n] == a[..n];
      BlankSeparates(a[n..], c, b);
      assert Words(s) == [a[..n]] + (Words(a[n..]) + Words(b));
    }
  }

  /** Words written out with blanks between them. */
  function Joined(words: seq<string>, c: char): string {
    if words == [] then [] else words[0] + [c] + Joined(words[1..], c)
  }

  lemma {:induction false} WordsOfJoined(words: seq<string>, c: char)
    requires IsSpace(c) && forall w :: w in words ==> Solid(w)
    ensures Words(Joined(words, c)) == words
  {
    if words != [] {
      BlankSeparates(words[0], c, Joined(words[1..], c));
      SolidIsOneWord(words[0]);
      WordsOfJoined(words[1..], c);
    }
  }

  /** A line without its blanks. */
  function Squeezed(s: string): string {
    if s == [] then [] else (if IsSpace(s[0]) then [] else [s[0]]) + Squeezed(s[1..])
  }

  function Concat(words: seq<string>): string {
    if words == [] then [] else words[0] + Concat(words[1..])
  }

  lemma {:induction false} SqueezedSolid(a: string, b: string)
    requires forall i :: 0 <= i < |a| ==> !IsSpace(a[i])
    ensures Squeezed(a + b) == a + Squeezed(b)
  {
    if a == [] {
      assert a + b == b;
    } else {
      assert (a + b)[1..] == a[1..] + b;
      SqueezedSolid(a[1..], b);
      assert [a[0]] + (a[1..] + Squeezed(b)) == a + Squeezed(b);
    }
  }

  /** Words are free of blanks and together they are all that is not a blank. */
  lemma {:induction false} WordsMeaning(s: string)
    ensures forall w :: w in Words(s) ==> Solid(w)
    ensures Concat(Words(s)) == Squeezed(s)
    decreases |s|
  {
    if s == [] {
    } else if IsSpace(s[0]) {
      WordsMeaning(s[1..]);
    } else {
      var n := WordLen(s);
      WordsMeaning(s[n..]);
      assert s[..n] + s[n..] == s;
      SqueezedSolid(s[..n], s[n..]);
      assert Words(s)[1..] == Words(s[n..]);
    }
  }

  // ---------------------------------------------------------------- which lines need no shell

  function Stripped(s: string): string {
    if s != [] && IsSpace(s[0]) then Stripped(s[1..]) else s
  }

  predicate IsAssignment(cmd: string) {
    exists n :: 0 <= n < |cmd| && cmd[n] == '=' && forall i :: 0 <= i < n ==> IsAlnum(cmd[i])
  }

  predicate NeedsShell(cmd: string) {
    || (|cmd| >= 2 && cmd[0] == '.' && IsSpace(cmd[1]))
    || (|cmd| >= 5 && cmd[..4] == "exec" && IsSpace(cmd[4]))
    || IsAssignment(cmd)
  }

  /** `cmd` is `body`, which has no shell metacharacter, followed by nothing or a newline, or by a
      final redirection of standard error to standard output. */
  predicate Simple(cmd: string, body: string, merged: bool) {
    && Plain(body)
    && |body| <= |cmd| && cmd[..|body|] == body
    && var end := cmd[|body|..];
       if merged then |end| >= 5 && IsSpace(end[0]) && end[0] != '\n' && end[1..5] == "2>&1" && Blank(end[5..])
       else end == "" || end == "\n"
  }

  /** A line is simple in one way only. */
  lemma SimpleUnique(cmd: string, body: string, merged: bool, body': string, merged': bool)
    requires Simple(cmd, body, merged) && Simple(cmd, body', merged')
    ensures body == body' && merged == merged'
  {
    SimpleMarks(cmd, body, merged);
    SimpleMarks(cmd, body', merged');
    var n, n' := |body|, |body'|;
    assert forall i :: 0 <= i < n ==> cmd[i] == body[i] && !IsMeta(cmd[i]);
    assert forall i :: 0 <= i < n' ==> cmd[i] == body'[i] && !IsMeta(cmd[i]);
    assert n == n' by {
      if merged != merged' {
        assert false;
      }
    }
  }

  /** What is at the end of the body. */
  lemma SimpleMarks(cmd: string, body: string, merged: bool)
    requires Simple(cmd, body, merged)
    ensures var n := |body|;
            if merged
            then |cmd| >= n + 5 && IsSpace(cmd[n]) && cmd[n + 1] == '2' && cmd[n + 2] == '>' && IsMeta(cmd[n + 2])
            else |cmd| == n || (|cmd| == n + 1 && cmd[n] == '\n' && IsMeta(cmd[n]))
  {
    var n := |body|;
    if merged {
      assert cmd[n..][1..5][0] == '2' && cmd[n..][1..5][1] == '>';
    }
  }

  // ---------------------------------------------------------------- the same in plain characters

  const METAS := "$&*(){}[]'\";\\|?<>~`\n"
  const BLANKS := " \t\n\r\U{0C}"

  lemma BlankMeaning(c: char)
    ensures IsSpace(c) <==> c in BLANKS
  {
    assert BLANKS == [' ', '\t', '\n', '\r', '\U{0C}'];
  }

  lemma MetaMeaning(c: char)
    ensures IsMeta(c) <==> c in METAS
  {
    assert METAS == ['$', '&', '*', '(', ')', '{', '}', '[', ']', '\'', '\"', ';', '\\', '|', '?', '<', '>', '~', '`',
                     '\n'];
  }

  /** A line needs no shell for its metacharacters exactly if it has none, or only a newline at its end,
      or only those of 2>&1, behind a blank and with nothing but blanks after it. */
  lemma SimpleMeaning(cmd: string, body: string, merged: bool)
    ensures Simple(cmd, body, merged) <==>
              && (forall c :: c in body ==> c !in METAS)
              && if merged
                 then exists c, rest :: c in " \t\r\U{0C}" && (forall d :: d in rest ==> d in BLANKS)
                                        && cmd == body + [c] + "2>&1" + rest
                 else cmd == body || cmd == body + "\n"
  {
    forall c ensures IsMeta(c) <==> c in METAS {
      MetaMeaning(c);
    }
    PlainBody(body);
    if merged {
      if Plain(body) {
        SimpleMerged(cmd, body);
      }
    } else {
      assert cmd == body + "" <==> cmd == body;
      if |body| <= |cmd| && cmd[..|body|] == body {
        assert cmd == body + cmd[|body|..];
      }
      if cmd == body {
        assert cmd[|body|..] == "";
      }
      if cmd == body + "\n" {
        assert cmd[|body|..] == "\n" && cmd[..|body|] == body;
      }
    }
  }

  lemma PlainBody(body: string)
    ensures Plain(body) <==> forall c :: c in body ==> !IsMeta(c)
  {
    if Plain(body) {
      forall c | c in body ensures !IsMeta(c) {
        var i :| 0 <= i < |body| && body[i] == c;
      }
    }
  }

  lemma BlankRest(rest: string)
    ensures Blank(rest) <==> forall d :: d in rest ==> d in BLANKS
  {
    forall c ensures IsSpace(c) <==> c in BLANKS {
      BlankMeaning(c);
    }
    if Blank(rest) {
      forall c | c in rest ensures IsSpace(c) {
        var i :| 0 <= i < |rest| && rest[i] == c;
      }
    } else {
      var i :| 0 <= i < |rest| && !IsSpace(rest[i]);
      assert rest[i] in rest;
    }
  }

  lemma SimpleMerged(cmd: string, body: string)
    requires Plain(body)
    ensures Simple(cmd, body, true) <==>
              exists c, rest :: c in " \t\r\U{0C}" && (forall d :: d in rest ==> d in BLANKS)
                                && cmd == body + [c] + "2>&1" + rest
  {
    var n := |body|;
    forall c ensures IsSpace(c) && c != '\n' <==> c in " \t\r\U{0C}" {
      assert " \t\r\U{0C}" == [' ', '\t', '\r', '\U{0C}'];
    }
    if Simple(cmd, body, true) {
      var end := cmd[n..];
      BlankRest(end[5..]);
      assert cmd == body + [end[0]] + "2>&1" + end[5..] by {
        assert end == [end[0]] + end[1..5] + end[5..];
        assert cmd == body + end;
      }
    }
    if c, rest :| c in " \t\r\U{0C}" && (forall d :: d in rest ==> d in BLANKS) &&
                  cmd == body + [c] + "2>&1" + rest {
      BlankRest(rest);
      assert cmd[..n] == body && cmd[n..] == [c] + "2>&1" + rest;
      assert cmd[n..][1..5] == "2>&1" && cmd[n..][5..] == rest;
    }
  }

  /** What is left to the shell whatever follows it: "." and "exec" as words, and an assignment to a name
      of letters, digits and underscores. */
  lemma NeedsShellMeaning(cmd: string)
    ensures NeedsShell(cmd) <==>
              || (exists c, rest :: c in BLANKS && (cmd == "." + [c] + rest || cmd == "exec" + [c] + rest))
              || (exists name, rest :: cmd == name + "=" + rest &&
                    forall d :: d in name ==> 'a' <= d <= 'z' || 'A' <= d <= 'Z' || '0' <= d <= '9' || d == '_')
  {
    forall c ensures IsSpace(c) <==> c in BLANKS {
      BlankMeaning(c);
    }
    if |cmd| >= 2 && cmd[0] == '.' && IsSpace(cmd[1]) {
      assert cmd == "." + [cmd[1]] + cmd[2..];
    } else if |cmd| >= 5 && cmd[..4] == "exec" && IsSpace(cmd[4]) {
      assert cmd == "exec" + [cmd[4]] + cmd[5..];
    }
    AssignmentMeaning(cmd);
    if c, rest :| c in BLANKS && (cmd == "." + [c] + rest || cmd == "exec" + [c] + rest) {
      if cmd == "exec" + [c] + rest {
        assert cmd[..4] == "exec" && cmd[4] == c;
      }
    }
  }

  lemma AssignmentMeaning(cmd: string)
    ensures IsAssignment(cmd) <==>
              exists name, rest :: cmd == name + "=" + rest &&
                forall d :: d in name ==> 'a' <= d <= 'z' || 'A' <= d <= 'Z' || '0' <= d <= '9' || d == '_'
  {
    if n :| 0 <= n < |cmd| && cmd[n] == '=' && forall i :: 0 <= i < n ==> IsAlnum(cmd[i]) {
      assert cmd == cmd[..n] + "=" + cmd[n + 1..];
      assert forall d :: d in cmd[..n] ==> IsAlnum(d);
    }
    if name, rest :|
      && cmd == name + "=" + rest
      && (forall d :: d in name ==> 'a' <= d <= 'z' || 'A' <= d <= 'Z' || '0' <= d <= '9' || d == '_')
    {
      assert cmd[|name|] == '=';
      forall i | 0 <= i < |name| ensures IsAlnum(cmd[i]) {
        assert cmd[i] == name[i] && name[i] in name;
      }
    }
  }

  lemma StrippedMeaning(s: string)
    ensures var t := Stripped(s);
            && (t != [] ==> !IsSpace(t[0]))
            && |t| <= |s| && s[|s| - |t|..] == t && Blank(s[..|s| - |t|])
  {
    if s != [] && IsSpace(s[0]) {
      StrippedMeaning(s[1..]);
      var t, n := Stripped(s), |s| - |Stripped(s)|;
      assert s[n..] == s[1..][n - 1..];
      assert s[..n] == [s[0]] + s[1..][..n - 1];
    }
  }

  // ---------------------------------------------------------------- running a line

  /** What is executed; `retry` is what the shell gets when the system will not execute the file
      itself (ENOEXEC). */
  datatype Outcome =
    | Shell(line: string)
    | Direct(argv: seq<string>, merged: bool, retry: Option<string>)
    | Nothing(merged: bool)

  function Arguments(r: Outcome): seq<string>
    requires !r.Shell?
  {
    if r.Direct? then r.argv else []
  }

  /** `text` is stored from `p` on, ended by NUL. */
  ghost predicate Stored(mem: seq<char>, p: nat, text: string) {
    IsText(text) && p + |text| < |mem| && mem[p..p + |text|] == text && mem[p + |text|] == '\0'
  }

  /** The same, character by character. */
  lemma StoredAt(mem: seq<char>, p: nat, text: string)
    ensures Stored(mem, p, text) <==>
            && IsText(text) && p + |text| < |mem| && mem[p + |text|] == '\0'
            && forall i :: 0 <= i < |text| ==> mem[p + i] == text[i]
  {
    if p + |text| < |mem| && forall i :: 0 <= i < |text| ==> mem[p + i] == text[i] {
      assert mem[p..p + |text|] == text;
    }
    if Stored(mem, p, text) {
      forall i | 0 <= i < |text|
        ensures mem[p + i] == text[i]
      {
        assert mem[p..p + |text|][i] == mem[p + i];
      }
    }
  }

  /** Reading a string at its address, as the callee of execvp does. */
  method CString(mem: array<char>, p: nat, ghost text: string) returns (r: string)
    requires Stored(mem[..], p, text)
    ensures r == text
  {
    var e := p;
    while mem[e] != '\0'
      invariant p <= e <= p + |text|
      invariant forall i :: 0 <= i < |text| ==> mem[p + i] == text[i]
      invariant mem[p + |text|] == '\0'
      decreases p + |text| - e
    {
      e := e + 1;
    }
    r := mem[p..e];
  }

  /** The forms that are left to the shell whatever follows them. */
  method OnlyShell(buf: array<char>, cmd: nat, ghost line: string) returns (r: bool)
    requires Stored(buf[..], cmd, line)
    ensures r <==> NeedsShell(line)
  {
    var n := |line|;
    StoredAt(buf[..], cmd, line);
    if buf[cmd] == '.' && IsSpace(buf[cmd + 1]) {
      return true;
    }
    var k := 0;
    while k < 4 && buf[cmd + k] == "exec"[k]
      invariant k <= 4 && k <= n && line[..k] == "exec"[..k]
    {
      k := k + 1;
    }
    if k == 4 && IsSpace(buf[cmd + 4]) {
      return true;
    }
    var s := 0;
    while IsAlnum(buf[cmd + s])
      invariant s <= n && forall i :: 0 <= i < s ==> IsAlnum(line[i])
      decreases n - s
    {
      s := s + 1;
    }
    r := buf[cmd + s] == '=';
    assert buf[cmd + s] == if s < n then line[s] else '\0';
    AssignmentAt(line, s);
  }

  /** An assignment is recognized behind the name. */
  lemma AssignmentAt(line: string, s: nat)
    requires s <= |line| && (forall i :: 0 <= i < s ==> IsAlnum(line[i])) && (s < |line| ==> !IsAlnum(line[s]))
    ensures IsAssignment(line) <==> s < |line| && line[s] == '='
  {
    if IsAssignment(line) {
      var m :| 0 <= m < |line| && line[m] == '=' && forall i :: 0 <= i < m ==> IsAlnum(line[i]);
      assert !IsAlnum(line[m]);
      assert m == s;
    }
  }

  /** Where the first metacharacter may be in a simple line. */
  lemma FirstMeta(line: string, s: nat, body: string, merged: bool)
    requires s < |line| && Plain(line[..s]) && IsMeta(line[s]) && Simple(line, body, merged)
    ensures if merged then s >= 2 && body == line[..s - 2]
            else line[s] == '\n' && s + 1 == |line|
  {
    SimpleMarks(line, body, merged);
    var n := |body|;
    PlainPrefix(line, n);
    PlainPrefix(line, s);
  }

  lemma PlainPrefix(line: string, n: nat)
    requires n <= |line| && Plain(line[..n])
    ensures forall i :: 0 <= i < n ==> !IsMeta(line[i])
  {
    forall i | 0 <= i < n ensures !IsMeta(line[i]) {
      assert line[..n][i] == line[i];
    }
  }

  /** Is the redirection 2>&1, with its ">" at `s`, all that is left of the line? */
  method IsMergeTail(buf: array<char>, cmd: nat, s: nat, ghost line: string) returns (r: bool)
    requires Stored(buf[..], cmd, line)
    requires s < |line| && Plain(line[..s]) && IsMeta(line[s])
    ensures r <==> s >= 2 && Simple(line, line[..s - 2], true)
  {
    var n := |line|;
    var p := cmd + s;
    StoredAt(buf[..], cmd, line);
    r := false;
    if buf[p] == '>' && buf[p + 1] == '&' && buf[p + 2] == '1' && s > 1 && buf[p - 1] == '2' && IsSpace(buf[p - 2])
       && (buf[p + 3] == '\0' || IsSpace(buf[p + 3])) {
      var t := s + 3;
      while IsSpace(buf[cmd + t])
        invariant s + 3 <= t <= n && Blank(line[s + 3..t])
        decreases n - t
      {
        assert line[s + 3..t + 1] == line[s + 3..t] + [line[t]];
        t := t + 1;
      }
      r := buf[cmd + t] == '\0';
      if t < n {
        assert line[t] == buf[cmd + t] && line[s + 3..][t - s - 3] == line[t];
      } else {
        assert line[s + 3..t] == line[s + 3..];
      }
    }
    if s > 1 {
      TailMarks(line, s);
      assert s + 3 < n ==> line[s + 3..][0] == line[s + 3];
    }
  }

  /** A blank and 2>&1, with the ">" at `p`. */
  predicate Redirects(s: string, p: nat) {
    2 <= p && p + 2 < |s| && IsSpace(s[p - 2]) && s[p - 1] == '2' && s[p] == '>' && s[p + 1] == '&' && s[p + 2] == '1'
  }

  lemma TailMarks(line: string, s: nat)
    requires 2 <= s < |line| && Plain(line[..s])
    ensures Simple(line, line[..s - 2], true) <==> Redirects(line, s) && Blank(line[s + 3..])
  {
    var body, end := line[..s - 2], line[s - 2..];
    assert Plain(body) && line[s - 2] == line[..s][s - 2];
    assert !IsMeta('2');
    if s + 3 <= |line| {
      assert end[5..] == line[s + 3..];
      assert end[1..5] == [line[s - 1], line[s], line[s + 1], line[s + 2]];
      assert "2>&1" == ['2', '>', '&', '1'];
    }
  }

  /** The scan for metacharacters: the shell is needed, or the command proper has been ended by NUL
      in the buffer. */
  method Scan(buf: array<char>, cmd: nat, dup2: bool, ghost line: string)
    returns (shell: bool, end: nat, merged: bool, ghost body: string)
    requires Stored(buf[..], cmd, line)
    modifies buf
    ensures shell ==> buf[..] == old(buf[..]) && forall b, m :: Simple(line, b, m) ==> m && !dup2
    ensures !shell ==> Simple(line, body, merged) && (merged ==> dup2)
    ensures !shell ==> |body| <= end <= |line| && Stored(buf[..], cmd, body)
  {
    var s := 0;
    merged := false;
    StoredAt(buf[..], cmd, line);
    while buf[cmd + s] != '\0' && !IsMeta(buf[cmd + s])
      invariant s <= |line| && Plain(line[..s])
      decreases |line| - s
    {
      assert line[..s + 1] == line[..s] + [line[s]];
      s := s + 1;
    }
    if buf[cmd + s] == '\0' {
      assert line[..s] == line;
      return false, s, false, line;
    }
    shell, merged, body := AtMeta(buf, cmd, s, dup2, line);
    end := s;
  }

  /** At the first metacharacter the scan ends. */
  method AtMeta(buf: array<char>, cmd: nat, s: nat, dup2: bool, ghost line: string)
    returns (shell: bool, merged: bool, ghost body: string)
    requires Stored(buf[..], cmd, line)
    requires s < |line| && Plain(line[..s]) && IsMeta(line[s])
    modifies buf
    ensures shell ==> buf[..] == old(buf[..]) && forall b, m :: Simple(line, b, m) ==> m && !dup2
    ensures !shell ==> Simple(line, body, merged) && (merged ==> dup2)
    ensures !shell ==> |body| <= s && Stored(buf[..], cmd, body)
  {
    StoredAt(buf[..], cmd, line);
    if buf[cmd + s] == '\n' && buf[cmd + s + 1] == '\0' {
      assert line[s..] == "\n";
      CutAt(buf, cmd, line, s);
      return false, false, line[..s];
    }
    var tail := IsMergeTail(buf, cmd, s, line);
    if tail && dup2 {
      CutAt(buf, cmd, line, s - 2);
      return false, true, line[..s - 2];
    }
    forall b, m | Simple(line, b, m) ensures m && !dup2 {
      FirstMeta(line, s, b, m);
    }
    return true, false, [];
  }

  /** Ending the string earlier. */
  method CutAt(buf: array<char>, cmd: nat, ghost line: string, k: nat)
    requires Stored(buf[..], cmd, line) && k < |line|
    modifies buf
    ensures Stored(buf[..], cmd, line[..k])
  {
    StoredAt(buf[..], cmd, line);
    buf[cmd + k] := '\0';
    StoredAt(buf[..], cmd, line[..k]);
  }

  /** The first `n` pointers are the addresses of the words, in order, and a NULL follows. */
  ghost predicate Vector(mem: seq<char>, argv: seq<Option<nat>>, words: seq<string>) {
    && |words| < |argv| && argv[|words|] == None
    && forall i :: 0 <= i < |words| ==> argv[i].Some? && Stored(mem, argv[i].value, words[i])
  }

  /** The command from `s` on has not been cut yet. */
  ghost predicate Uncut(mem: array<char>, s: nat, body: string)
    reads mem
  {
    && IsText(body) && s <= |body| < mem.Length && mem[|body|] == '\0'
    && forall i :: s <= i < |body| ==> mem[i] == body[i]
  }

  method SkipBlanks(mem: array<char>, s: nat, ghost body: string) returns (e: nat)
    requires Uncut(mem, s, body)
    ensures s <= e && Uncut(mem, e, body) && Words(body[e..]) == Words(body[s..])
    ensures !IsSpace(mem[e])
  {
    e := s;
    while IsSpace(mem[e])
      invariant s <= e <= |body| && Words(body[e..]) == Words(body[s..])
      decreases |body| - e
    {
      e := e + 1;
    }
  }

  method NextWord(mem: array<char>, s: nat, ghost body: string) returns (e: nat)
    requires Uncut(mem, s, body) && s < |body| && !IsSpace(body[s])
    ensures s < e && Uncut(mem, e, body) && Words(body[s..]) == [body[s..e]] + Words(body[e..])
    ensures e < |body| ==> Words(body[e..]) == Words(body[e + 1..])
  {
    e := s;
    while mem[e] != '\0' && !IsSpace(mem[e])
      invariant s <= e <= |body| && forall i :: s <= i < e ==> !IsSpace(body[i])
      decreases |body| - e
    {
      e := e + 1;
    }
    FirstWord(body, s, e);
  }

  /** The first word of what is left, and the words behind the blank that ends it. */
  lemma FirstWord(body: string, s: nat, e: nat)
    requires s < e <= |body| && (forall i :: s <= i < e ==> !IsSpace(body[i])) && (e < |body| ==> IsSpace(body[e]))
    ensures Words(body[s..]) == [body[s..e]] + Words(body[e..])
    ensures e < |body| ==> Words(body[e..]) == Words(body[e + 1..])
  {
    var rest := body[s..];
    WordLenUnique(rest, e - s);
    WordsAhead(rest);
    assert rest[..e - s] == body[s..e] && rest[e - s..] == body[e..];
    if e < |body| {
      BlankAhead(body[e..]);
      assert body[e..][1..] == body[e + 1..];
    }
  }

  lemma WordsAhead(s: string)
    requires s != "" && !IsSpace(s[0])
    ensures WordLen(s) > 0 && Words(s) == [s[..WordLen(s)]] + Words(s[WordLen(s)..])
  {
  }

  lemma BlankAhead(s: string)
    requires s != "" && IsSpace(s[0])
    ensures Words(s) == Words(s[1..])
  {
  }

  /** A word is ended by NUL, in place of the blank after it. */
  method TakeWord(mem: array<char>, s: nat, ghost body: string) returns (e: nat, ghost w: string)
    requires Uncut(mem, s, body) && s < |body| && !IsSpace(body[s])
    modifies mem
    ensures Uncut(mem, e, body) && w != [] && Stored(mem[..], s, w)
    ensures s + |w| < e || s + |w| == e == |body|
    ensures Words(body[s..]) == [w] + Words(body[e..])
    ensures forall i :: 0 <= i < s ==> mem[i] == old(mem[i])
  {
    e := NextWord(mem, s, body);
    w := body[s..e];
    e := EndWord(mem, s, e, body);
  }

  /** NUL in place of the blank, if there is one, and on behind it. */
  method EndWord(mem: array<char>, s: nat, e: nat, ghost body: string) returns (next: nat)
    requires s <= e && Uncut(mem, s, body) && e <= |body|
    modifies mem
    ensures next == if e < |body| then e + 1 else e
    ensures Stored(mem[..], s, body[s..e]) && Uncut(mem, next, body)
    ensures forall i :: 0 <= i < s ==> mem[i] == old(mem[i])
  {
    next := e;
    if mem[e] != '\0' {
      mem[e] := '\0';
      next := e + 1;
    }
    StoredAt(mem[..], s, body[s..e]);
  }

  /** The words cut so far; what is still to be cut lies behind them. */
  ghost predicate Cut(mem: seq<char>, argv: seq<Option<nat>>, words: seq<string>, s: nat, body: string) {
    && |words| <= |argv|
    && forall i :: 0 <= i < |words| ==>
         && argv[i].Some? && Stored(mem, argv[i].value, words[i])
         && (argv[i].value + |words[i]| < s || s == |body|)
  }

  lemma CutKept(was: seq<char>, mem: seq<char>, argv: seq<Option<nat>>, argv': seq<Option<nat>>, words: seq<string>,
                s: nat, e: nat, body: string)
    requires Cut(was, argv, words, s, body) && s < |body| && s <= e
    requires |was| == |mem| && forall i :: 0 <= i < s && i < |mem| ==> mem[i] == was[i]
    requires |argv'| == |argv| && forall i :: 0 <= i < |words| ==> argv'[i] == argv[i]
    ensures Cut(mem, argv', words, e, body)
  {
    forall i | 0 <= i < |words|
      ensures Stored(mem, argv[i].value, words[i])
    {
      var p := argv[i].value;
      assert Stored(was, p, words[i]) && p + |words[i]| < s;
      assert mem[p..p + |words[i]|] == was[p..p + |words[i]|];
    }
  }

  /** Cut one word off and note its address. */
  method CutWord(mem: array<char>, argv: array<Option<nat>>, a: nat, s: nat, ghost body: string,
                 ghost words: seq<string>) returns (e: nat, ghost w: string)
    requires Uncut(mem, s, body) && s < |body| && !IsSpace(body[s])
    requires a == |words| < argv.Length && Cut(mem[..], argv[..], words, s, body)
    modifies mem, argv
    ensures Uncut(mem, e, body) && Cut(mem[..], argv[..], words + [w], e, body)
    ensures words + Words(body[s..]) == words + [w] + Words(body[e..])
    ensures s + 2 <= e || s + 1 <= e == |body|
  {
    ghost var was, slots := mem[..], argv[..];
    argv[a] := Some(s);
    e, w := TakeWord(mem, s, body);
    CutKept(was, mem[..], slots, argv[..], words, s, e, body);
    assert words + ([w] + Words(body[e..])) == words + [w] + Words(body[e..]);
  }

  /** Cutting the command into words in place.  The vector has room for half as many pointers as
      the command has characters, and two more. */
  method Split(mem: array<char>, argv: array<Option<nat>>, ghost body: string)
    requires Stored(mem[..], 0, body)
    requires argv.Length == (mem.Length - 1) / 2 + 2
    modifies mem, argv
    ensures Vector(mem[..], argv[..], Words(body))
  {
    var s, a := 0, 0;
    ghost var words: seq<string> := [];
    assert forall i :: 0 <= i < |body| ==> mem[..][0..0 + |body|][i] == mem[i];
    while mem[s] != '\0'
      invariant Uncut(mem, s, body) && a == |words|
      invariant words + Words(body[s..]) == Words(body)
      invariant 2 * a <= s + if s == |body| then 1 else 0
      invariant Cut(mem[..], argv[..], words, s, body)
      decreases |body| - s
    {
      s := SkipBlanks(mem, s, body);
      if mem[s] != '\0' {
        ghost var w;
        s, w := CutWord(mem, argv, a, s, body, words);
        a := a + 1;
        words := words + [w];
      }
    }
    assert body[s..] == [];
    ghost var slots := argv[..];
    argv[a] := None;
    assert forall i :: 0 <= i < a ==> argv[..][i] == slots[i];
  }

  /** The vector as execvp sees it: the strings in front of the first NULL. */
  method Strings(mem: array<char>, argv: array<Option<nat>>, ghost words: seq<string>) returns (r: seq<string>)
    requires Vector(mem[..], argv[..], words)
    ensures r == words
  {
    var a := 0;
    r := [];
    while argv[a].Some?
      invariant a <= |words| && r == words[..a] && Vector(mem[..], argv[..], words)
      decreases |words| - a
    {
      var w := CString(mem, argv[a].value, words[a]);
      r := r + [w];
      a := a + 1;
    }
  }

  /** Only a blank line has no words to run. */
  lemma BlankLine(incmd: string)
    ensures Stripped(incmd) == "" <==> Blank(incmd)
    ensures forall body, merged :: Simple(Stripped(incmd), body, merged) ==> (Words(body) == [] <==> Blank(incmd))
    ensures Blank(incmd) ==> Simple(Stripped(incmd), "", false) && !NeedsShell(Stripped(incmd))
  {
    StrippedMeaning(incmd);
    var line := Stripped(incmd);
    assert line == "" ==> incmd[..|incmd|] == incmd;
    assert line != "" ==> line[0] == incmd[|incmd| - |line|..][0];
    forall body, merged | Simple(line, body, merged)
      ensures Words(body) == [] <==> line == ""
    {
      SimpleMarks(line, body, merged);
    }
  }

  /** Cutting a copy of the command proper, and running it unless it is empty. */
  method RunDirect(buf: array<char>, cmd: nat, end: nat, merged: bool, noexec: bool, ghost body: string)
    returns (r: Outcome)
    requires Stored(buf[..], cmd, body) && |body| <= end && cmd + end < buf.Length
    ensures !r.Shell? && r.merged == merged && Arguments(r) == Words(body) && (r.Nothing? <==> Words(body) == [])
    ensures r.Direct? ==> r.retry == if noexec then Some(body) else None
  {
    var argv := new Option<nat>[end / 2 + 2](_ => None);
    var mem := new char[end + 1](i requires 0 <= i <= end && cmd + end < buf.Length reads buf =>
                                   if i < end then buf[cmd + i] else '\0');
    StoredAt(buf[..], cmd, body);
    StoredAt(mem[..], 0, body);
    Split(mem, argv, body);
    if argv[0].Some? {
      var args := Strings(mem, argv, Words(body));
      var retry := None;
      if noexec {
        var rest := CString(buf, cmd, body);
        retry := Some(rest);
      }
      r := Direct(args, merged, retry);
    } else {
      r := Nothing(merged);
    }
  }

  /** The line is run directly, after its final redirection if it has one, exactly when it has the
      simple shape and none of the forms that only a shell knows; else the shell gets it whole.  If the system then
      refuses the file, the shell gets the same command proper that was cut into words. */
  method DoExec3(incmd: string, dup2: bool, noexec: bool) returns (r: Outcome)
    requires IsText(incmd)
    ensures r.Shell? <==> NeedsShell(Stripped(incmd)) ||
                          forall body, merged :: Simple(Stripped(incmd), body, merged) ==> merged && !dup2
    ensures r.Shell? ==> r.line == Stripped(incmd)
    ensures !r.Shell? && r.merged ==> dup2
    ensures !r.Shell? ==>
              exists body :: Simple(Stripped(incmd), body, r.merged) && Arguments(r) == Words(body) &&
                             (r.Direct? ==> r.retry == if noexec then Some(body) else None)
    ensures r.Nothing? <==> Blank(incmd)
  {
    var buf, cmd, line := Load(incmd);
    BlankLine(incmd);
    var shell := OnlyShell(buf, cmd, line);
    var end, merged := 0, false;
    ghost var body: string;
    if !shell {
      shell, end, merged, body := Scan(buf, cmd, dup2, line);
    }
    if shell {
      var whole := CString(buf, cmd, line);
      return Shell(whole);
    }
    r := RunDirect(buf, cmd, end, merged, noexec, body);
    assert Simple(Stripped(incmd), body, r.merged);
  }

  /** A copy of the line, and where it starts behind its blanks. */
  method Load(incmd: string) returns (buf: array<char>, cmd: nat, ghost line: string)
    requires IsText(incmd)
    ensures fresh(buf) && line == Stripped(incmd) && Stored(buf[..], cmd, line) && cmd + |line| < buf.Length
  {
    buf := new char[|incmd| + 1](i => if 0 <= i < |incmd| then incmd[i] else '\0');
    assert buf[..|incmd|] == incmd;
    cmd := 0;
    while IsSpace(buf[cmd])
      invariant cmd <= |incmd| && Stripped(incmd[cmd..]) == Stripped(incmd)
      decreases |incmd| - cmd
    {
      cmd := cmd + 1;
    }
    line := incmd[cmd..];
    assert Stored(buf[..], cmd, line);
    assert line == Stripped(incmd);
  }
}
