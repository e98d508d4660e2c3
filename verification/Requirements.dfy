/** The check of pip requirement files.  A line that starts with "-r" includes the file named directly after that. */
module Requirements {
  import opened Collections
  import opened Wrappers

  type FileSystem = map<string, seq<string>>

  predicate IsSpace(c: char) {
    c == ' ' || c == '\t' || c == '\n' || c == '\r' || c == 11 as char || c == 12 as char
  }

  function Strip(s: string): string {
    if s == "" then ""
    else if IsSpace(s[0]) then Strip(s[1..])
    else if IsSpace(s[|s| - 1]) then Strip(s[..|s| - 1])
    else s
  }

  function DropTrailingSlashes(s: string): string {
    if s != "" && s[|s| - 1] == '/' then DropTrailingSlashes(s[..|s| - 1]) else s
  }

  function UpToLastSlash(s: string): string {
    if s == "" || s[|s| - 1] == '/' then s else UpToLastSlash(s[..|s| - 1])
  }

  /** os.path.dirname on POSIX systems. */
  function Dirname(path: string): string {
    var head := UpToLastSlash(path);
    if DropTrailingSlashes(head) == "" then head else DropTrailingSlashes(head)
  }

  /** os.path.join on POSIX systems. */
  function JoinPath(a: string, b: string): string {
    if b != "" && b[0] == '/' then b
    else if a == "" || a[|a| - 1] == '/' then a + b
    else a + "/" + b
  }

  predicate IsInclude(line: string) {
    "-r" <= Strip(line)
  }

  /** What an include line names: all that follows "-r", spaces included. */
  function Name(line: string): string
    requires IsInclude(line)
  {
    Strip(line)[2..]
  }

  /** The file that a line of the given file includes. */
  function Target(file: string, line: string): string
    requires IsInclude(line)
  {
    JoinPath(Dirname(file), Name(line))
  }

  // ---------------------------------------------------------------------------------------------
  // Spaces after "-r"

  lemma {:induction false} StripEnds(s: string)
    ensures |Strip(s)| <= |s| && (s != "" && IsSpace(s[0]) ==> |Strip(s)| < |s|)
    ensures Strip(s) != "" ==> !IsSpace(Strip(s)[0]) && !IsSpace(Strip(s)[|Strip(s)| - 1])
    ensures s != "" && !IsSpace(s[0]) && !IsSpace(s[|s| - 1]) ==> Strip(s) == s
  {
    if s != "" {
      if IsSpace(s[0]) {
        StripEnds(s[1..]);
      } else if IsSpace(s[|s| - 1]) {
        StripEnds(s[..|s| - 1]);
      }
    }
  }

  predicate AllSpace(s: string) {
    forall i :: 0 <= i < |s| ==> IsSpace(s[i])
  }

  /** Strip takes off spaces at both ends, and nothing else. */
  lemma {:induction false} StripParts(s: string) returns (before: string, after: string)
    ensures s == before + Strip(s) + after && AllSpace(before) && AllSpace(after)
  {
    before, after := "", "";
    if s != "" {
      if IsSpace(s[0]) {
        before, after := StripParts(s[1..]);
        before := [s[0]] + before;
        assert s == [s[0]] + s[1..];
      } else if IsSpace(s[|s| - 1]) {
        before, after := StripParts(s[..|s| - 1]);
        after := after + [s[|s| - 1]];
        assert s == s[..|s| - 1] + [s[|s| - 1]];
      }
    }
  }

  predicate NoSlash(s: string) {
    forall i :: 0 <= i < |s| ==> s[i] != '/'
  }

  lemma {:induction false} CutAtSlash(head: string, base: string)
    requires NoSlash(base) && (head == "" || head[|head| - 1] == '/')
    ensures UpToLastSlash(head + base) == head
  {
    if base == "" {
      assert head + base == head;
    } else {
      assert (head + base)[..|head + base| - 1] == head + base[..|base| - 1];
      CutAtSlash(head, base[..|base| - 1]);
    }
  }

  /** A relative name is taken from the directory of the file that names it. */
  lemma RelativeTarget(dir: string, base: string, line: string)
    requires IsInclude(line) && (Name(line) == "" || Name(line)[0] != '/')
    requires NoSlash(base)
    ensures Target(base, line) == Name(line)
    ensures Target("/" + base, line) == "/" + Name(line)
    ensures dir != "" && dir[|dir| - 1] != '/' ==> Target(dir + "/" + base, line) == dir + "/" + Name(line)
  {
    CutAtSlash("", base);
    assert "" + base == base;
    CutAtSlash("/", base);
    assert DropTrailingSlashes("/") == "" by { assert "/"[..0] == ""; }
    if dir != "" && dir[|dir| - 1] != '/' {
      CutAtSlash(dir + "/", base);
      assert (dir + "/")[..|dir|] == dir;
      assert DropTrailingSlashes(dir + "/") == dir;
    }
  }

  /** An absolute name stands for itself. */
  lemma AbsoluteTarget(file: string, line: string)
    requires IsInclude(line) && Name(line) != "" && Name(line)[0] == '/'
    ensures Target(file, line) == Name(line)
  {
  }

  /** The file included is the one with the stripped name exactly when there is no space between "-r" and the name. */
  lemma NameIsStrippedIff(file: string, line: string)
    requires IsInclude(line)
    ensures Target(file, line) == JoinPath(Dirname(file), Strip(Name(line)))
      <==> Name(line) == "" || !IsSpace(Name(line)[0])
  {
    var name := Name(line);
    StripEnds(line);
    StripEnds(name);
    if name != "" {
      assert name[|name| - 1] == Strip(line)[|Strip(line)| - 1];
    }
  }

  /** So "-r base.txt" names a file that begins with a space. */
  lemma SpaceAfterOption(file: string)
    ensures IsInclude("-r base.txt") && Name("-r base.txt") == " base.txt"
    ensures Target(file, "-r base.txt") != JoinPath(Dirname(file), "base.txt")
  {
    StripEnds("-r base.txt");
    StripEnds(" base.txt");
    assert " base.txt"[1..] == "base.txt";
    NameIsStrippedIff(file, "-r base.txt");
  }

  // ---------------------------------------------------------------------------------------------
  // The reference: every include line is replaced by the contents of the included file

  datatype End = Completed | MissingFile(path: string) | Unfulfilled(requirement: string)

  /** The requirements checked, in order, and how the check ended. */
  datatype Outcome = Outcome(checked: seq<string>, end: End)

  /** b follows a, unless a has ended the check. */
  function AndThen(a: Option<Outcome>, b: Option<Outcome>): Option<Outcome> {
    if a.None? || !a.value.end.Completed? then a
    else if b.None? then None
    else Some(Outcome(a.value.checked + b.value.checked, b.value.end))
  }

  lemma AndThenAssociative(a: Option<Outcome>, b: Option<Outcome>, c: Option<Outcome>)
    ensures AndThen(AndThen(a, b), c) == AndThen(a, AndThen(b, c))
  {
    if a.Some? && b.Some? && c.Some? {
      var x, y, z := a.value.checked, b.value.checked, c.value.checked;
      assert x + y + z == x + (y + z);
    }
  }

  /** The check of some lines of a file; None when includes go deeper than depth before anything ends it. */
  function Expand(fs: FileSystem, met: string -> bool, path: string, lines: seq<string>, depth: nat): Option<Outcome>
    decreases depth, |lines|
  {
    if lines == [] then Some(Outcome([], Completed))
    else AndThen(ExpandLine(fs, met, path, lines[0], depth), Expand(fs, met, path, lines[1..], depth))
  }

  function ExpandLine(fs: FileSystem, met: string -> bool, path: string, line: string, depth: nat): Option<Outcome>
    decreases depth, 0
  {
    if IsInclude(line) then
      var target := Target(path, line);
      if target !in fs then Some(Outcome([], MissingFile(target)))
      else if depth == 0 then None
      else Expand(fs, met, target, fs[target], depth - 1)
    else
      var requirement := Strip(line);
      if requirement == "" then Some(Outcome([], Completed))
      else Some(Outcome([requirement], if met(requirement) then Completed else Unfulfilled(requirement)))
  }

  /** More depth changes nothing once the depth suffices. */
  lemma {:induction false} ExpandMonotone(
      fs: FileSystem, met: string -> bool, path: string, lines: seq<string>, d: nat, e: nat)
    requires d <= e && Expand(fs, met, path, lines, d).Some?
    ensures Expand(fs, met, path, lines, e) == Expand(fs, met, path, lines, d)
    decreases d, |lines|
  {
    if lines != [] {
      if IsInclude(lines[0]) && Target(path, lines[0]) in fs {
        ExpandMonotone(fs, met, Target(path, lines[0]), fs[Target(path, lines[0])], d - 1, e - 1);
      }
      if Expand(fs, met, path, lines[1..], d).Some? {
        ExpandMonotone(fs, met, path, lines[1..], d, e);
      }
    }
  }

  lemma {:induction false} ExpandConcat(
      fs: FileSystem, met: string -> bool, path: string, a: seq<string>, b: seq<string>, d: nat)
    ensures Expand(fs, met, path, a + b, d) == AndThen(Expand(fs, met, path, a, d), Expand(fs, met, path, b, d))
    decreases |a|
  {
    if a == [] {
      assert a + b == b;
      var o := Expand(fs, met, path, b, d);
      if o.Some? { assert [] + o.value.checked == o.value.checked; }
    } else {
      assert (a + b)[0] == a[0] && (a + b)[1..] == a[1..] + b;
      ExpandConcat(fs, met, path, a[1..], b, d);
      AndThenAssociative(ExpandLine(fs, met, path, a[0], d),
                         Expand(fs, met, path, a[1..], d), Expand(fs, met, path, b, d));
    }
  }

  /** Once a line has ended the check, the lines after it do not matter. */
  lemma NothingAfterTheEnd(
      fs: FileSystem, met: string -> bool, path: string, lines: seq<string>, more: seq<string>, d: nat)
    requires Expand(fs, met, path, lines, d).Some? && !Expand(fs, met, path, lines, d).value.end.Completed?
    ensures Expand(fs, met, path, lines + more, d) == Expand(fs, met, path, lines, d)
  {
    ExpandConcat(fs, met, path, lines, more, d);
  }

  /** What the next line adds: a line that includes a file all that this file checks, a blank one nothing, and any
      other the requirement that it names. */
  lemma OneMoreLine(
      fs: FileSystem, met: string -> bool, path: string, lines: seq<string>, line: string, d: nat)
    requires Expand(fs, met, path, lines, d).Some? && Expand(fs, met, path, lines, d).value.end.Completed?
    ensures var checked, r := Expand(fs, met, path, lines, d).value.checked, Expand(fs, met, path, lines + [line], d);
      if "-r" <= Strip(line) then
        var file := JoinPath(Dirname(path), Strip(line)[2..]);
        if file !in fs then r == Some(Outcome(checked, MissingFile(file)))
        else if d == 0 then r == None
        else
          var included := Expand(fs, met, file, fs[file], d - 1);
          if included.None? then r == None
          else r == Some(Outcome(checked + included.value.checked, included.value.end))
      else if Strip(line) == "" then r == Some(Outcome(checked, Completed))
      else if met(Strip(line)) then r == Some(Outcome(checked + [Strip(line)], Completed))
      else r == Some(Outcome(checked + [Strip(line)], Unfulfilled(Strip(line))))
  {
    ExpandConcat(fs, met, path, lines, [line], d);
    assert [line][1..] == [];
    var own := ExpandLine(fs, met, path, line, d);
    if own.Some? { assert own.value.checked + [] == own.value.checked; }
    assert Expand(fs, met, path, [line], d) == own;
    var checked := Expand(fs, met, path, lines, d).value.checked;
    assert checked + [] == checked;
  }

  // ---------------------------------------------------------------------------------------------
  // The loop with its explicit stack, the current file being the top

  datatype Frame = Frame(path: string, lines: seq<string>)

  /** What the loop answers within n iterations, from these requirements checked and this stack; None if it has not
      ended by then. */
  ghost function Loop(fs: FileSystem, met: string -> bool, checked: seq<string>, stack: seq<Frame>, n: nat)
    : Option<Outcome>
    decreases n
  {
    if stack == [] then Some(Outcome(checked, Completed))
    else if n == 0 then None
    else
      var below, path, lines := stack[..|stack| - 1], stack[|stack| - 1].path, stack[|stack| - 1].lines;
      if lines == [] then Loop(fs, met, checked, below, n - 1)
      else
        var line, rest := Strip(lines[0]), below + [Frame(path, lines[1..])];
        if IsInclude(lines[0]) then
          var target := Target(path, lines[0]);
          if target !in fs then Some(Outcome(checked, MissingFile(target)))
          else Loop(fs, met, checked, rest + [Frame(target, fs[target])], n - 1)
        else if line == "" then Loop(fs, met, checked, rest, n - 1)
        else if met(line) then Loop(fs, met, checked + [line], rest, n - 1)
        else Some(Outcome(checked + [line], Unfulfilled(line)))
  }

  /** One iteration: at the end of a file, */
  lemma PopIteration(fs: FileSystem, met: string -> bool, checked: seq<string>, below: seq<Frame>, path: string, n: nat)
    requires Loop(fs, met, checked, below + [Frame(path, [])], n).Some?
    ensures n > 0 && Loop(fs, met, checked, below + [Frame(path, [])], n) == Loop(fs, met, checked, below, n - 1)
  {
    assert (below + [Frame(path, [])])[..|below|] == below;
  }

  /** at a line that includes a file, */
  lemma IncludeIteration(fs: FileSystem, met: string -> bool, checked: seq<string>, below: seq<Frame>,
                         path: string, lines: seq<string>, n: nat)
    requires Loop(fs, met, checked, below + [Frame(path, lines)], n).Some? && lines != [] && IsInclude(lines[0])
    ensures n > 0
    ensures var target := Target(path, lines[0]);
      Loop(fs, met, checked, below + [Frame(path, lines)], n) ==
        if target !in fs then Some(Outcome(checked, MissingFile(target)))
        else Loop(fs, met, checked, below + [Frame(path, lines[1..])] + [Frame(target, fs[target])], n - 1)
  {
    assert (below + [Frame(path, lines)])[..|below|] == below;
  }

  /** and at any other line. */
  lemma LineIteration(fs: FileSystem, met: string -> bool, checked: seq<string>, below: seq<Frame>,
                      path: string, lines: seq<string>, n: nat)
    requires Loop(fs, met, checked, below + [Frame(path, lines)], n).Some? && lines != [] && !IsInclude(lines[0])
    ensures n > 0
    ensures var line := Strip(lines[0]);
      var now := if line == "" then checked else checked + [line];
      Loop(fs, met, checked, below + [Frame(path, lines)], n) ==
        if line != "" && !met(line) then Some(Outcome(now, Unfulfilled(line)))
        else Loop(fs, met, now, below + [Frame(path, lines[1..])], n - 1)
  {
    assert (below + [Frame(path, lines)])[..|below|] == below;
  }

  ghost predicate LoopEnds(fs: FileSystem, met: string -> bool, root: string)
    requires root in fs
  {
    exists n: nat :: Loop(fs, met, [], [Frame(root, fs[root])], n).Some?
  }

  /** If the loop ends then so does the recursion: the top frame contributes its expansion, and if that has not
      ended the check, the loop is left with the frames below. */
  lemma {:induction false} LoopExpands(fs: FileSystem, met: string -> bool, checked: seq<string>, below: seq<Frame>,
                                       path: string, lines: seq<string>, n: nat) returns (m: nat)
    requires Loop(fs, met, checked, below + [Frame(path, lines)], n).Some?
    ensures Expand(fs, met, path, lines, n).Some?
    ensures var e := Expand(fs, met, path, lines, n).value;
      Loop(fs, met, checked, below + [Frame(path, lines)], n)
        == if e.end.Completed? then Loop(fs, met, checked + e.checked, below, m)
           else Some(Outcome(checked + e.checked, e.end))
    ensures m < n
    decreases n
  {
    m := n - 1;
    var stack := below + [Frame(path, lines)];
    assert stack[..|stack| - 1] == below && checked + [] == checked;
    if lines != [] {
      var line, rest := lines[0], below + [Frame(path, lines[1..])];
      if !IsInclude(line) {
        var now := checked + if Strip(line) == "" then [] else [Strip(line)];
        if Strip(line) == "" || met(Strip(line)) {
          m := LoopExpands(fs, met, now, below, path, lines[1..], n - 1);
          ExpandMonotone(fs, met, path, lines[1..], n - 1, n);
          var e := Expand(fs, met, path, lines[1..], n).value;
          ConcatAssociative(checked, if Strip(line) == "" then [] else [Strip(line)], e.checked);
        }
      } else if Target(path, line) in fs {
        var target := Target(path, line);
        var k := LoopExpands(fs, met, checked, rest, target, fs[target], n - 1);
        var first := Expand(fs, met, target, fs[target], n - 1).value;
        if first.end.Completed? {
          m := LoopExpands(fs, met, checked + first.checked, below, path, lines[1..], k);
          ExpandMonotone(fs, met, path, lines[1..], k, n);
          ConcatAssociative(checked, first.checked, Expand(fs, met, path, lines[1..], n).value.checked);
        }
      }
    }
  }

  lemma ConcatAssociative(a: seq<string>, b: seq<string>, c: seq<string>)
    ensures a + b + c == a + (b + c)
  {
  }

  /** If the recursion ends then so does the loop, with the same answer. */
  lemma {:induction false} ExpandLoops(fs: FileSystem, met: string -> bool, checked: seq<string>, below: seq<Frame>,
                                       path: string, lines: seq<string>, d: nat, m: nat) returns (n: nat)
    requires Expand(fs, met, path, lines, d).Some?
    ensures var e := Expand(fs, met, path, lines, d).value;
      Loop(fs, met, checked, below + [Frame(path, lines)], n)
        == if e.end.Completed? then Loop(fs, met, checked + e.checked, below, m)
           else Some(Outcome(checked + e.checked, e.end))
    decreases d, |lines|
  {
    n := m + 1;
    var stack := below + [Frame(path, lines)];
    assert stack[..|stack| - 1] == below && checked + [] == checked;
    if lines != [] {
      var line, rest := lines[0], below + [Frame(path, lines[1..])];
      var first := ExpandLine(fs, met, path, line, d).value;
      var k := 0;
      if first.end.Completed? {
        k := ExpandLoops(fs, met, checked + first.checked, below, path, lines[1..], d, m);
        ConcatAssociative(checked, first.checked, Expand(fs, met, path, lines[1..], d).value.checked);
      }
      if IsInclude(line) && Target(path, line) in fs {
        var target := Target(path, line);
        k := ExpandLoops(fs, met, checked, rest, target, fs[target], d - 1, k);
      }
      n := k + 1;
    }
  }

  /** The loop and the recursion end for the same files, with the same answer. */
  lemma LoopIsExpansion(fs: FileSystem, met: string -> bool, root: string)
    requires root in fs
    ensures LoopEnds(fs, met, root) <==> exists d: nat :: Expand(fs, met, root, fs[root], d).Some?
    ensures forall n: nat, d: nat ::
      Loop(fs, met, [], [Frame(root, fs[root])], n).Some? && Expand(fs, met, root, fs[root], d).Some?
      ==> Loop(fs, met, [], [Frame(root, fs[root])], n) == Expand(fs, met, root, fs[root], d)
  {
    assert [] + [Frame(root, fs[root])] == [Frame(root, fs[root])];
    forall n: nat | Loop(fs, met, [], [Frame(root, fs[root])], n).Some?
      ensures Expand(fs, met, root, fs[root], n) == Loop(fs, met, [], [Frame(root, fs[root])], n)
    {
      var m := LoopExpands(fs, met, [], [], root, fs[root], n);
      var e := Expand(fs, met, root, fs[root], n).value;
      assert [] + e.checked == e.checked;
    }
    forall n: nat, d: nat |
      Loop(fs, met, [], [Frame(root, fs[root])], n).Some? && Expand(fs, met, root, fs[root], d).Some?
      ensures Loop(fs, met, [], [Frame(root, fs[root])], n) == Expand(fs, met, root, fs[root], d)
    {
      if d <= n {
        ExpandMonotone(fs, met, root, fs[root], d, n);
      } else {
        ExpandMonotone(fs, met, root, fs[root], n, d);
      }
    }
    if d: nat :| Expand(fs, met, root, fs[root], d).Some? {
      var n := ExpandLoops(fs, met, [], [], root, fs[root], d, 0);
      assert Loop(fs, met, [], [Frame(root, fs[root])], n).Some?;
    }
  }

  // ---------------------------------------------------------------------------------------------
  // When the loop ends

  ghost predicate Completes(fs: FileSystem, met: string -> bool, path: string, lines: seq<string>) {
    exists d: nat ::
      var e := Expand(fs, met, path, lines, d);
      e.Some? && e.value.end.Completed?
  }

  /** The check of file a comes to a line that includes b: all lines before it are fine. */
  ghost predicate Reaches(fs: FileSystem, met: string -> bool, a: string, b: string) {
    && a in fs && b in fs
    && exists i :: ReachesAt(fs, met, a, b, i)
  }

  ghost predicate ReachesAt(fs: FileSystem, met: string -> bool, a: string, b: string, i: int)
    requires a in fs
  {
    && 0 <= i < |fs[a]| && IsInclude(fs[a][i]) && Target(a, fs[a][i]) == b
    && Completes(fs, met, a, fs[a][..i])
  }

  ghost predicate Includes(fs: FileSystem, a: string, b: string) {
    a in fs && b in fs && exists i :: 0 <= i < |fs[a]| && IsInclude(fs[a][i]) && Target(a, fs[a][i]) == b
  }

  /** Files from root on, each included by the one before it. */
  ghost predicate IsChain(fs: FileSystem, root: string, chain: seq<string>) {
    && chain != [] && chain[0] == root && root in fs
    && (forall i :: 0 <= i < |chain| - 1 ==> Includes(fs, chain[i], chain[i + 1]))
  }

  ghost predicate IsReachedChain(fs: FileSystem, met: string -> bool, root: string, chain: seq<string>) {
    && chain != [] && chain[0] == root && root in fs
    && (forall i :: 0 <= i < |chain| - 1 ==> Reaches(fs, met, chain[i], chain[i + 1]))
  }

  /** No file included from root on includes itself, directly or through others. */
  ghost predicate Acyclic(fs: FileSystem, root: string) {
    forall chain :: IsChain(fs, root, chain) ==> Distinct(chain)
  }

  /** The same of the includes that the check comes to. */
  ghost predicate ReachedAcyclic(fs: FileSystem, met: string -> bool, root: string) {
    forall chain :: IsReachedChain(fs, met, root, chain) ==> Distinct(chain)
  }

  lemma ReachedChainIsShort(fs: FileSystem, met: string -> bool, root: string, chain: seq<string>)
    requires ReachedAcyclic(fs, met, root) && IsReachedChain(fs, met, root, chain)
    ensures |chain| <= |fs|
  {
    forall x | x in chain ensures x in fs {
      var i :| 0 <= i < |chain| && chain[i] == x;
      if i > 0 { assert Reaches(fs, met, chain[i - 1], chain[i - 1 + 1]); }
    }
    SubsetCount(Elements(chain), fs.Keys);
    assert |fs.Keys| == |fs|;
  }

  lemma ReachedChainGrows(fs: FileSystem, met: string -> bool, root: string, chain: seq<string>, b: string)
    requires IsReachedChain(fs, met, root, chain) && Reaches(fs, met, chain[|chain| - 1], b)
    ensures IsReachedChain(fs, met, root, chain + [b])
  {
    var longer := chain + [b];
    forall i | 0 <= i < |longer| - 1 ensures Reaches(fs, met, longer[i], longer[i + 1]) {
      if i < |chain| - 1 { assert Reaches(fs, met, chain[i], chain[i + 1]); }
    }
  }

  lemma CompletesOneMore(fs: FileSystem, met: string -> bool, path: string, lines: seq<string>, i: nat, d: nat)
    requires i < |lines| && Completes(fs, met, path, lines[..i])
    requires ExpandLine(fs, met, path, lines[i], d).Some?
    requires ExpandLine(fs, met, path, lines[i], d).value.end.Completed?
    ensures Completes(fs, met, path, lines[..i + 1])
  {
    var c: nat :| Expand(fs, met, path, lines[..i], c).Some?
                  && Expand(fs, met, path, lines[..i], c).value.end.Completed?;
    var e := if c < d then d else c;
    ExpandMonotone(fs, met, path, lines[..i], c, e);
    assert [lines[i]][1..] == [];
    assert Expand(fs, met, path, [lines[i]], d).Some?;
    ExpandMonotone(fs, met, path, [lines[i]], d, e);
    ExpandConcat(fs, met, path, lines[..i], [lines[i]], e);
    assert lines[..i + 1] == lines[..i] + [lines[i]];
  }

  /** As deep as there are files is deep enough. */
  lemma {:induction false} AcyclicExpands(
      fs: FileSystem, met: string -> bool, root: string, chain: seq<string>, i: nat)
    requires ReachedAcyclic(fs, met, root) && IsReachedChain(fs, met, root, chain)
    requires var file := chain[|chain| - 1];
      file in fs && i <= |fs[file]| && Completes(fs, met, file, fs[file][..i])
    ensures |chain| <= |fs|
    ensures var file := chain[|chain| - 1]; Expand(fs, met, file, fs[file][i..], |fs| - |chain|).Some?
    decreases |fs| - |chain|, |fs[chain[|chain| - 1]]| - i
  {
    ReachedChainIsShort(fs, met, root, chain);
    var file, depth := chain[|chain| - 1], |fs| - |chain|;
    if i < |fs[file]| {
      var line := fs[file][i];
      assert fs[file][i..][0] == line && fs[file][i..][1..] == fs[file][i + 1..];
      if IsInclude(line) && Target(file, line) in fs {
        var target := Target(file, line);
        assert ReachesAt(fs, met, file, target, i);
        ReachedChainGrows(fs, met, root, chain, target);
        ReachedChainIsShort(fs, met, root, chain + [target]);
        assert Expand(fs, met, target, [], 0).value.end.Completed?;
        assert fs[target][..0] == [] && fs[target][0..] == fs[target];
        AcyclicExpands(fs, met, root, chain + [target], 0);
      }
      assert ExpandLine(fs, met, file, line, depth).Some?;
      if ExpandLine(fs, met, file, line, depth).value.end.Completed? {
        CompletesOneMore(fs, met, file, fs[file], i, depth);
        AcyclicExpands(fs, met, root, chain, i + 1);
      }
    }
  }

  lemma AcyclicRootExpands(fs: FileSystem, met: string -> bool, root: string)
    requires root in fs && ReachedAcyclic(fs, met, root)
    ensures Expand(fs, met, root, fs[root], |fs|).Some?
  {
    assert IsReachedChain(fs, met, root, [root]);
    assert fs[root][..0] == [] && fs[root][0..] == fs[root];
    assert Expand(fs, met, root, [], 0).value.end.Completed?;
    AcyclicExpands(fs, met, root, [root], 0);
    ExpandMonotone(fs, met, root, fs[root], |fs| - 1, |fs|);
  }

  /** A file that the check of a comes to needs less depth than a. */
  lemma ReachedIsShallower(fs: FileSystem, met: string -> bool, a: string, b: string, d: nat)
    requires Reaches(fs, met, a, b) && Expand(fs, met, a, fs[a], d).Some?
    ensures d > 0 && Expand(fs, met, b, fs[b], d - 1).Some?
  {
    var i :| ReachesAt(fs, met, a, b, i);
    var before, after := fs[a][..i], fs[a][i..];
    assert fs[a] == before + after;
    ExpandConcat(fs, met, a, before, after, d);
    var c: nat :| Expand(fs, met, a, before, c).Some? && Expand(fs, met, a, before, c).value.end.Completed?;
    if c < d {
      ExpandMonotone(fs, met, a, before, c, d);
    } else {
      ExpandMonotone(fs, met, a, before, d, c);
    }
    assert after[0] == fs[a][i];
    assert ExpandLine(fs, met, a, after[0], d).Some?;
  }

  lemma {:induction false} ChainIsShallower(
      fs: FileSystem, met: string -> bool, root: string, chain: seq<string>, i: nat, j: nat, d: nat)
    requires IsReachedChain(fs, met, root, chain) && i <= j < |chain| && chain[i] in fs
    requires Expand(fs, met, chain[i], fs[chain[i]], d).Some?
    ensures chain[j] in fs && j - i <= d && Expand(fs, met, chain[j], fs[chain[j]], d - (j - i)).Some?
    decreases j - i
  {
    if i < j {
      assert Reaches(fs, met, chain[i], chain[i + 1]);
      ReachedIsShallower(fs, met, chain[i], chain[i + 1], d);
      ChainIsShallower(fs, met, root, chain, i + 1, j, d - 1);
    }
  }

  lemma {:induction false} CycleHasNoDepth(
      fs: FileSystem, met: string -> bool, root: string, chain: seq<string>, i: nat, j: nat, d: nat)
    requires IsReachedChain(fs, met, root, chain) && i < j < |chain| && chain[i] == chain[j] && chain[i] in fs
    ensures Expand(fs, met, chain[i], fs[chain[i]], d).None?
    decreases d
  {
    if Expand(fs, met, chain[i], fs[chain[i]], d).Some? {
      ChainIsShallower(fs, met, root, chain, i, j, d);
      CycleHasNoDepth(fs, met, root, chain, i, j, d - (j - i));
    }
  }

  /** A cycle that the check comes to keeps the loop going for ever. */
  lemma CycleNeverEnds(fs: FileSystem, met: string -> bool, root: string, chain: seq<string>)
    requires IsReachedChain(fs, met, root, chain) && !Distinct(chain)
    ensures !LoopEnds(fs, met, root)
  {
    LoopIsExpansion(fs, met, root);
    if LoopEnds(fs, met, root) {
      var d: nat :| Expand(fs, met, root, fs[root], d).Some?;
      var i, j :| 0 <= i < j < |chain| && chain[i] == chain[j];
      ChainIsShallower(fs, met, root, chain, 0, i, d);
      CycleHasNoDepth(fs, met, root, chain, i, j, d - i);
    }
  }

  /** The loop ends exactly when the check never comes, by includes, to a file for a second time.  A missing file or
      an unmet requirement before the include that would close a cycle makes it end. */
  lemma TerminatesIff(fs: FileSystem, met: string -> bool, root: string)
    requires root in fs
    ensures LoopEnds(fs, met, root) <==> ReachedAcyclic(fs, met, root)
  {
    if ReachedAcyclic(fs, met, root) {
      AcyclicRootExpands(fs, met, root);
      LoopIsExpansion(fs, met, root);
    } else {
      var chain :| IsReachedChain(fs, met, root, chain) && !Distinct(chain);
      CycleNeverEnds(fs, met, root, chain);
    }
  }

  /** The loop over an explicit stack checks exactly what the recursive replacement checks, in that order. */
  method CheckRequirements(fs: FileSystem, met: string -> bool, root: string) returns (outcome: Outcome)
    requires root in fs ==> ReachedAcyclic(fs, met, root)
    ensures root !in fs ==> outcome == Outcome([], MissingFile(root))
    ensures root in fs ==> Expand(fs, met, root, fs[root], |fs|) == Some(outcome)
  {
    if root !in fs {
      return Outcome([], MissingFile(root));
    }
    var checked: seq<string> := [];
    var stack := [Frame(root, fs[root])];
    AcyclicRootExpands(fs, met, root);
    LoopIsExpansion(fs, met, root);
    ghost var whole := Expand(fs, met, root, fs[root], |fs|);
    ghost var left: nat :| Loop(fs, met, [], stack, left).Some?;
    while stack != []
      invariant Loop(fs, met, checked, stack, left) == whole && whole.Some?
      decreases left
    {
      var top := stack[|stack| - 1];
      assert stack == stack[..|stack| - 1] + [top];
      var end: Option<End>;
      checked, stack, end, left := CheckLines(fs, met, checked, stack[..|stack| - 1], top.path, top.lines, left);
      if end.Some? {
        return Outcome(checked, end.value);
      }
    }
    return Outcome(checked, Completed);
  }

  /** The inner loop: goes through the lines of a file and of the files that it includes in its last lines, until a
      file is finished or the check ends. */
  method CheckLines(fs: FileSystem, met: string -> bool, checkedBefore: seq<string>, below: seq<Frame>,
                    path: string, pathLines: seq<string>, ghost n: nat)
    returns (checked: seq<string>, stack: seq<Frame>, end: Option<End>, ghost left: nat)
    requires Loop(fs, met, checkedBefore, below + [Frame(path, pathLines)], n).Some?
    ensures left < n
    ensures Loop(fs, met, checkedBefore, below + [Frame(path, pathLines)], n) ==
      if end.Some? then Some(Outcome(checked, end.value)) else Loop(fs, met, checked, stack, left)
  {
    checked, stack, left := checkedBefore, below, n;
    var filePath, lines := path, pathLines;
    ghost var whole := Loop(fs, met, checkedBefore, below + [Frame(path, pathLines)], n);
    while lines != []
      invariant Loop(fs, met, checked, stack + [Frame(filePath, lines)], left) == whole && left <= n
      decreases left
    {
      var line := Strip(lines[0]);
      if IsInclude(lines[0]) {
        IncludeIteration(fs, met, checked, stack, filePath, lines, left);
      } else {
        LineIteration(fs, met, checked, stack, filePath, lines, left);
      }
      lines := lines[1..];
      left := left - 1;
      if "-r" <= line {
        stack := stack + [Frame(filePath, lines)];
        filePath := JoinPath(Dirname(filePath), line[2..]);
        if filePath !in fs {
          return checked, stack, Some(MissingFile(filePath)), left;
        }
        lines := fs[filePath];
      } else if line != "" {
        checked := checked + [line];
        if !met(line) {
          return checked, stack, Some(Unfulfilled(line)), left;
        }
      }
    }
    PopIteration(fs, met, checked, stack, filePath, left);
    left := left - 1;
    end := None;
  }

  // ---------------------------------------------------------------------------------------------
  // When nothing but a cycle can matter

  /** Every requirement is met, and every included file exists. */
  ghost predicate NothingStops(fs: FileSystem, met: string -> bool) {
    && (forall requirement :: met(requirement))
    && (forall a, line :: a in fs && line in fs[a] && IsInclude(line) ==> Target(a, line) in fs)
  }

  lemma {:induction false} NothingStopsExpand(
      fs: FileSystem, met: string -> bool, path: string, lines: seq<string>, d: nat)
    requires NothingStops(fs, met) && path in fs && (forall line :: line in lines ==> line in fs[path])
    requires Expand(fs, met, path, lines, d).Some?
    ensures Expand(fs, met, path, lines, d).value.end.Completed?
    decreases d, |lines|
  {
    if lines != [] {
      assert lines[0] in lines;
      if IsInclude(lines[0]) {
        var target := Target(path, lines[0]);
        NothingStopsExpand(fs, met, target, fs[target], d - 1);
      }
      NothingStopsExpand(fs, met, path, lines[1..], d);
    }
  }

  lemma IncludeIsReached(fs: FileSystem, met: string -> bool, a: string, b: string, d: nat)
    requires NothingStops(fs, met) && Includes(fs, a, b) && Expand(fs, met, a, fs[a], d).Some?
    ensures Reaches(fs, met, a, b)
  {
    var i :| 0 <= i < |fs[a]| && IsInclude(fs[a][i]) && Target(a, fs[a][i]) == b;
    var before, after := fs[a][..i], fs[a][i..];
    assert fs[a] == before + after;
    ExpandConcat(fs, met, a, before, after, d);
    NothingStopsExpand(fs, met, a, before, d);
    assert ReachesAt(fs, met, a, b, i);
  }

  lemma {:induction false} ChainIsReached(
      fs: FileSystem, met: string -> bool, root: string, chain: seq<string>, n: nat, d: nat)
    requires NothingStops(fs, met) && IsChain(fs, root, chain) && 1 <= n <= |chain|
    requires Expand(fs, met, root, fs[root], d).Some?
    ensures IsReachedChain(fs, met, root, chain[..n])
    decreases n
  {
    if n > 1 {
      ChainIsReached(fs, met, root, chain, n - 1, d);
      var shorter := chain[..n - 1];
      ChainIsShallower(fs, met, root, shorter, 0, n - 2, d);
      assert Includes(fs, chain[n - 2], chain[n - 2 + 1]);
      IncludeIsReached(fs, met, chain[n - 2], chain[n - 1], d - (n - 2));
      ReachedChainGrows(fs, met, root, shorter, chain[n - 1]);
      assert chain[..n] == shorter + [chain[n - 1]];
    }
  }

  /** Acyclic includes always suffice, and they are needed when nothing else stops the loop. */
  lemma TerminatesIffAcyclic(fs: FileSystem, met: string -> bool, root: string)
    requires root in fs
    ensures Acyclic(fs, root) ==> LoopEnds(fs, met, root)
    ensures NothingStops(fs, met) ==> (LoopEnds(fs, met, root) <==> Acyclic(fs, root))
  {
    if Acyclic(fs, root) {
      forall chain | IsReachedChain(fs, met, root, chain) ensures Distinct(chain) {
        forall i | 0 <= i < |chain| - 1 ensures Includes(fs, chain[i], chain[i + 1]) {
          assert Reaches(fs, met, chain[i], chain[i + 1]);
          var k :| ReachesAt(fs, met, chain[i], chain[i + 1], k);
        }
        assert IsChain(fs, root, chain);
      }
      TerminatesIff(fs, met, root);
    }
    if NothingStops(fs, met) && LoopEnds(fs, met, root) {
      LoopIsExpansion(fs, met, root);
      var d: nat :| Expand(fs, met, root, fs[root], d).Some?;
      TerminatesIff(fs, met, root);
      forall chain | IsChain(fs, root, chain) ensures Distinct(chain) {
        ChainIsReached(fs, met, root, chain, |chain|, d);
        assert chain[..|chain|] == chain;
      }
    }
  }

  function SelfIncluding(requirement: string): FileSystem {
    map["a" := [requirement, "-ra"]]
  }

  predicate IsPlain(requirement: string) {
    requirement != "" && Strip(requirement) == requirement && !("-r" <= requirement)
  }

  /** A file that includes itself: the check goes on for ever, or stops at a requirement before that line. */
  lemma SelfInclude(requirement: string, met: string -> bool)
    requires IsPlain(requirement)
    ensures !Acyclic(SelfIncluding(requirement), "a")
    ensures LoopEnds(SelfIncluding(requirement), met, "a") <==> !met(requirement)
  {
    IncludesItself(requirement);
    if met(requirement) {
      ReachesItself(requirement, met);
      var chain := ["a", "a"];
      assert IsReachedChain(SelfIncluding(requirement), met, "a", chain) && chain[0] == chain[1];
      CycleNeverEnds(SelfIncluding(requirement), met, "a", chain);
    } else {
      StopsBefore(requirement, met);
    }
  }

  lemma IncludesItself(requirement: string)
    ensures var line := "-ra"; IsInclude(line) && Target("a", line) == "a"
    ensures !Acyclic(SelfIncluding(requirement), "a")
  {
    var fs, chain := SelfIncluding(requirement), ["a", "a"];
    assert "-ra"[2..] == "a" && Target("a", fs["a"][1]) == "a";
    assert Includes(fs, chain[0], chain[1]);
    assert IsChain(fs, "a", chain) && chain[0] == chain[1];
  }

  lemma ReachesItself(requirement: string, met: string -> bool)
    requires IsPlain(requirement) && met(requirement)
    ensures Reaches(SelfIncluding(requirement), met, "a", "a")
  {
    var fs, before := SelfIncluding(requirement), [requirement];
    IncludesItself(requirement);
    assert fs["a"][..1] == before && before[0] == requirement && before[1..] == [];
    assert Expand(fs, met, "a", before, 0)
        == AndThen(ExpandLine(fs, met, "a", requirement, 0), Expand(fs, met, "a", [], 0));
    assert ReachesAt(fs, met, "a", "a", 1);
  }

  lemma StopsBefore(requirement: string, met: string -> bool)
    requires IsPlain(requirement) && !met(requirement)
    ensures LoopEnds(SelfIncluding(requirement), met, "a")
  {
    var fs, n := SelfIncluding(requirement), |[requirement]|;
    assert Loop(fs, met, [], [Frame("a", fs["a"])], n) == Some(Outcome([] + [requirement], Unfulfilled(requirement)));
  }
}
