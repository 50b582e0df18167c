/**
 What the clean-up job of a deleted workspace removes from the shared claim
 (getSpecCommonPVCCleanupJob in pkg/provision/storage/cleanup.go). The job runs `/bin/sh -c` on
 `rm -rf ` followed by the unquoted path of the workspace's directory, so the workspace's ID is
 read by the shell. IDs are taken without slashes and otherwise as they come.
 */
module CleanupJob {
  import opened Options
  import opened ShellQuoting
  import Storage

  type Id = string

  const MOUNT := "/tmp/devworkspaces/"

  /** path.Join(MOUNT, id) for an ID without slashes: Clean resolves the empty and the dotted names. */
  function JobPath(id: Id): string {
    if id == "" || id == "." then "/tmp/devworkspaces" else if id == ".." then "/tmp" else MOUNT + id
  }

  function JobCommand(id: Id): string {
    "rm -rf " + JobPath(id)
  }

  // ----- rm -----

  /** What follows the last slash of a path. */
  function Base(path: string): string {
    if path == "" || path[|path| - 1] == '/' then "" else Base(path[..|path| - 1]) + [path[|path| - 1]]
  }

  /** rm -rf removes the operand and everything below it, but refuses dot and dot-dot. */
  predicate RemovedBy(path: string, absolute: string) {
    && Base(path) != "." && Base(path) != ".."
    && (absolute == path || path + "/" <= absolute || (Base(path) == "" && path <= absolute))
  }

  predicate IsLiteral(w: Word) {
    forall p :: p in w ==> p.Literal?
  }

  /** The text of a word, with `x` for each wildcard. */
  function Instance(w: Word): string {
    seq(|w|, i requires 0 <= i < |w| => if w[i].Literal? then w[i].c else 'x')
  }

  /** Whether a name matches a pattern. */
  predicate Match(w: Word, name: string)
    decreases |w| + |name|
  {
    if w == [] then name == ""
    else
      match w[0]
      case Literal(c) => name != "" && name[0] == c && Match(w[1..], name[1..])
      case AnyChar => name != "" && Match(w[1..], name[1..])
      case AnyString => Match(w[1..], name) || (name != "" && Match(w, name[1..]))
  }

  /** Pathname expansion of the last component: a leading period is matched by a period only. */
  predicate Selects(w: Word, name: string) {
    Match(w, name) && (name != "" && name[0] == '.' ==> w != [] && w[0] == Literal('.'))
  }

  /**
   Whether an operand of rm removes `file` of the claim, which holds directories `names`. A
   pattern that selects none of them stays as it is and names nothing.
   */
  predicate OperandRemoves(operand: Word, names: set<string>, file: string) {
    if IsLiteral(operand) then RemovedBy(Instance(operand), MOUNT + file)
    else
      |operand| >= |MOUNT| &&
      exists n :: n in names && Selects(operand[|MOUNT|..], n) && n + "/" <= file
  }

  /** How the shell reads the job's command, where that needs no more than quoting and patterns. */
  function JobWords(id: Id): Option<(seq<Word>, string)> {
    ReadCommand(JobCommand(id), map[])
  }

  /** An operand that cannot be taken for an option. */
  predicate NoOption(w: Word) {
    IsLiteral(w) && (w != [] ==> w[0] != Literal('-'))
  }

  /**
   The first operand, if the shell's reading of the command settles that rm runs on it: the first
   line is one command, and no later word could be an option, which rm may honour anywhere.
   */
  function JobOperand(id: Id): Option<Word> {
    var r := JobWords(id);
    if r.Some? && |r.value.0| > 2 && forall i :: 3 <= i < |r.value.0| ==> NoOption(r.value.0[i]) then Some(r.value.0[2])
    else None
  }

  /** The files the job is sure to remove: those its first operand names. */
  predicate MustRemove(id: Id, names: set<string>, file: string) {
    JobOperand(id).Some? && OperandRemoves(JobOperand(id).value, names, file)
  }

  /**
   The files the job may remove. A command that the reading does not cover, that has more
   operands (relative to a working directory) or that another command follows may remove any.
   */
  predicate MayRemove(id: Id, names: set<string>, file: string) {
    var r := JobWords(id);
    r.None? || |r.value.0| != 3 || r.value.1 != "" || OperandRemoves(r.value.0[2], names, file)
  }

  /** The files of a workspace: everything under its sub-path of the claim. */
  predicate BelongsTo(file: string, id: Id) {
    id + "/" <= file
  }

  // ----- IDs that the shell reads as they are -----

  /** Nothing in the text has a meaning to the shell inside a word. */
  predicate LiteralText(t: string) {
    t == "" ||
    (LiteralStart(t) && LiteralText(t[1..]))
  }

  predicate LiteralStart(t: string)
    requires t != ""
  {
    && !Delimits(t[0]) && !Expands(t[0]) && t[0] != '\'' && t[0] != '\\' && t[0] != '*' && t[0] != '?'
    && !OpensBracket(t)
  }

  predicate Plain(id: Id) {
    '/' !in id && id != "" && id != "." && id != ".." && LiteralText(id)
  }

  lemma {:induction false} OrdinaryIdsAreLiteral(id: Id)
    requires forall c :: c in id ==> Ordinary(c)
    ensures LiteralText(id)
  {
    if id != "" {
      assert id[0] in id;
      OrdinaryIdsAreLiteral(id[1..]);
    }
  }

  predicate AlphaNumeric(c: char) {
    'a' <= c <= 'z' || 'A' <= c <= 'Z' || '0' <= c <= '9'
  }

  /** The IDs the operator generates: `workspace` and parts of a UUID. */
  lemma GeneratedIdsArePlain(digits: string)
    requires forall c :: c in digits ==> AlphaNumeric(c)
    ensures Plain("workspace" + digits)
  {
    var id := "workspace" + digits;
    forall c | c in id ensures Ordinary(c) && c != '/' { assert c in "workspace" || c in digits; }
    OrdinaryIdsAreLiteral(id);
    assert |id| > 2;
  }

  lemma {:induction false} LiteralTextReads(t: string)
    requires LiteralText(t)
    ensures ReadWord(t, false) == Some((Lit(t), ""))
  {
    if t != "" {
      LiteralTextReads(t[1..]);
      LitConcat([t[0]], t[1..]);
      assert [t[0]] + t[1..] == t && Lit([t[0]]) == [Literal(t[0])];
    } else {
      assert Lit(t) == [];
    }
  }

  /** Quoting only ever shortens a word. */
  lemma {:induction false} WordLength(t: string, quoted: bool)
    ensures var r := ReadWord(t, quoted);
      r.Some? ==> |r.value.0| + |r.value.1| <= |t| - if quoted then 1 else 0
    decreases |t|
  {
    if t != "" {
      WordLength(t[1..], false);
      WordLength(t[1..], true);
      if |t| > 1 { WordLength(t[2..], false); }
    }
  }

  /** Text that reads as one word equal to itself has nothing special in it. */
  lemma {:induction false} ReadsAsItself(t: string, w: Word)
    requires ReadWord(t, false) == Some((w, "")) && Instance(w) == t
    ensures LiteralText(t) && w == Lit(t)
  {
    if t != "" {
      assert |w| == |t| && Instance(w)[0] == t[0];
      WordLength(t[1..], true);
      if |t| > 1 { WordLength(t[2..], false); }
      var r := ReadWord(t[1..], false);
      assert r.Some? && r.value.1 == "" && w == [w[0]] + r.value.0;
      assert w[1..] == r.value.0;
      assert Instance(r.value.0) == Instance(w)[1..];
      ReadsAsItself(t[1..], r.value.0);
    } else {
      assert |w| == 0;
    }
  }

  // ----- the command -----

  lemma OrdinaryMount()
    ensures forall c :: c in MOUNT ==> Ordinary(c)
    ensures forall c :: c in "/tmp/devworkspaces" ==> Ordinary(c)
  {
  }

  lemma CommandReads(path: string)
    ensures ReadCommand("rm -rf " + path, map[]) == Before([Lit("rm"), Lit("-rf")], ReadCommand(path, map[]))
  {
    WordsRead("-rf", path, map[]);
    WordsRead("rm", "-rf" + (" " + path), map[]);
    assert "rm" + (" " + ("-rf" + (" " + path))) == "rm -rf " + path;
    var r := ReadCommand(path, map[]);
    if r.Some? { assert [Lit("rm")] + ([Lit("-rf")] + r.value.0) == [Lit("rm"), Lit("-rf")] + r.value.0; }
  }

  /** A command that starts with an absolute path. */
  lemma PathReads(path: string)
    requires path != "" && path[0] == '/'
    ensures ReadWord(path, false).None? ==> ReadCommand(path, map[]) == None
    ensures ReadWord(path, false).Some? && |ReadWord(path, false).value.1| < |path| ==>
              ReadCommand(path, map[]) ==
                  Before([ReadWord(path, false).value.0], ReadCommand(ReadWord(path, false).value.1, map[]))
  {
    assert ReadParameter(path) == None;
  }

  function OperandBefore(w: Word, rest: string): Option<(seq<Word>, string)> {
    Before([Lit("rm"), Lit("-rf"), Lit(MOUNT) + w], ReadCommand(rest, map[]))
  }

  /** The operand is the mount path with the ID's first word; the rest of the ID follows. */
  lemma OperandReads(id: Id)
    requires id != "" && id != "." && id != ".."
    ensures ReadWord(id, false).None? ==> JobWords(id) == None
    ensures ReadWord(id, false).Some? ==>
            JobWords(id) == OperandBefore(ReadWord(id, false).value.0, ReadWord(id, false).value.1)
  {
    var path := MOUNT + id;
    OrdinaryMount();
    CommandReads(path);
    OrdinaryPrefix(MOUNT, id);
    WordLength(id, false);
    assert path[0] == '/';
    PathReads(path);
    var r := ReadWord(id, false);
    if r.Some? { BeforeTwice(Lit(MOUNT) + r.value.0, ReadCommand(r.value.1, map[])); }
  }

  lemma BeforeTwice(operand: Word, r: Option<(seq<Word>, string)>)
    ensures Before([Lit("rm"), Lit("-rf")], Before([operand], r)) == Before([Lit("rm"), Lit("-rf"), operand], r)
  {
    if r.Some? {
      assert [Lit("rm"), Lit("-rf")] + ([operand] + r.value.0) == [Lit("rm"), Lit("-rf"), operand] + r.value.0;
    }
  }

  lemma LitInstance(s: string)
    ensures IsLiteral(Lit(s)) && Instance(Lit(s)) == s
  {
  }

  lemma InstanceConcat(v: Word, w: Word)
    ensures Instance(v + w) == Instance(v) + Instance(w)
  {
  }

  // ----- plain IDs -----

  lemma PrefixSplit(p: string, q: string)
    requires p <= q
    ensures q == p + q[|p|..]
  {
  }

  lemma CancelPrefix(p: string, a: string, b: string)
    ensures p + a == p + b ==> a == b
    ensures p + a <= p + b <==> a <= b
  {
    assert (p + a)[|p|..] == a && (p + b)[|p|..] == b;
    if p + a <= p + b { assert (p + b)[|p|..|p + a|] == b[..|a|]; }
    if a <= b { assert (p + b)[..|p + a|] == p + a; }
  }

  /** A file belongs to one workspace at most. */
  lemma OneOwner(file: string, a: Id, b: Id)
    requires '/' !in a && '/' !in b && BelongsTo(file, a) && BelongsTo(file, b)
    ensures a == b
  {
    PrefixSplit(a + "/", file);
    PrefixSplit(b + "/", file);
    Storage.WorkspacesDoNotShare(a, file[|a + "/"|..], b, file[|b + "/"|..]);
  }

  lemma {:induction false} BaseOf(path: string, name: string)
    requires '/' !in name && (path == "" || path[|path| - 1] == '/')
    ensures Base(path + name) == name
  {
    if name == "" {
      assert path + name == path;
    } else {
      var init := name[..|name| - 1];
      BaseOf(path, init);
      assert (path + name)[..|path + name| - 1] == path + init;
      assert name == init + [name[|name| - 1]] && name[|name| - 1] in name;
    }
  }

  /** Removing the directory of a name removes the files of the workspace with that ID and no other. */
  lemma NameRemoves(name: string, owner: Id, file: string)
    requires '/' !in name && name != "" && name != "." && name != ".."
    requires '/' !in owner && BelongsTo(file, owner)
    ensures RemovedBy(MOUNT + name, MOUNT + file) <==> owner == name
  {
    BaseOf(MOUNT, name);
    assert file[|owner|] == '/' && '/' in file;
    CancelPrefix(MOUNT, name, file);
    assert MOUNT + name + "/" == MOUNT + (name + "/");
    CancelPrefix(MOUNT, name + "/", file);
    if BelongsTo(file, name) { OneOwner(file, owner, name); }
  }

  lemma PlainJobReads(id: Id)
    requires Plain(id)
    ensures JobWords(id) == Some(([Lit("rm"), Lit("-rf"), Lit(MOUNT + id)], ""))
  {
    LiteralTextReads(id);
    OperandReads(id);
    LitConcat(MOUNT, id);
    assert ReadCommand("", map[]) == Some(([], ""));
    assert [Lit("rm"), Lit("-rf"), Lit(MOUNT + id)] + [] == [Lit("rm"), Lit("-rf"), Lit(MOUNT + id)];
  }

  /** The job of a plain ID is sure to remove the files of its own workspace, and can remove no other's. */
  lemma PlainJobRemoves(id: Id, names: set<string>, owner: Id, file: string)
    requires Plain(id) && '/' !in owner && BelongsTo(file, owner)
    ensures MustRemove(id, names, file) <==> owner == id
    ensures MayRemove(id, names, file) <==> owner == id
  {
    PlainJobReads(id);
    LitInstance(MOUNT + id);
    NameRemoves(id, owner, file);
  }

  // ----- other IDs -----

  lemma OrdinaryJobReads(path: string)
    requires path != "" && path[0] == '/' && forall c :: c in path ==> Ordinary(c)
    ensures ReadCommand("rm -rf " + path, map[]) == Some(([Lit("rm"), Lit("-rf"), Lit(path)], ""))
  {
    CommandReads(path);
    assert path + "" == path && ReadCommand("", map[]) == Some(([], ""));
    OrdinaryWord(path, "", map[]);
    assert [Lit(path)] + [] == [Lit(path)];
    assert [Lit("rm"), Lit("-rf")] + [Lit(path)] == [Lit("rm"), Lit("-rf"), Lit(path)];
  }

  lemma DottedJobReads(id: Id)
    requires id == "" || id == "." || id == ".."
    ensures JobWords(id) == Some(([Lit("rm"), Lit("-rf"), Lit(JobPath(id))], ""))
  {
    OrdinaryMount();
    assert forall c :: c in "/tmp" ==> Ordinary(c);
    OrdinaryJobReads(JobPath(id));
  }

  lemma DottedJobRemovesEverything(id: Id, names: set<string>, file: string)
    requires id == "" || id == "." || id == ".."
    ensures MustRemove(id, names, file)
  {
    DottedJobReads(id);
    var path := JobPath(id);
    LitInstance(path);
    TopRemoves(file);
    assert RemovedBy(path, MOUNT + file);
    assert JobWords(id).value.0[2] == Lit(path);
  }

  lemma TopRemoves(file: string)
    ensures RemovedBy("/tmp/devworkspaces", MOUNT + file) && RemovedBy("/tmp", MOUNT + file)
  {
    BaseOf("/tmp/", "devworkspaces");
    BaseOf("/", "tmp");
    assert "/tmp/" + "devworkspaces" == "/tmp/devworkspaces" && "/" + "tmp" == "/tmp";
    assert MOUNT + file == "/tmp/devworkspaces" + "/" + file;
    assert MOUNT + file == "/tmp" + "/" + ("devworkspaces/" + file);
    assert "/tmp/devworkspaces" + "/" <= MOUNT + file && "/tmp" + "/" <= MOUNT + file;
  }

  /** The job's operand reads as dot or dot-dot, as with a quoted or blank-padded dot: rm refuses it. */
  predicate JobRefused(id: Id) {
    var r := JobWords(id);
    r.Some? && |r.value.0| == 3 && r.value.1 == "" &&
    (r.value.0[2] == Lit(MOUNT + ".") || r.value.0[2] == Lit(MOUNT + ".."))
  }

  lemma DotsRemoveNothing(names: set<string>, file: string)
    ensures !OperandRemoves(Lit(MOUNT + "."), names, file) && !OperandRemoves(Lit(MOUNT + ".."), names, file)
  {
    LitInstance(MOUNT + ".");
    LitInstance(MOUNT + "..");
    BaseOf(MOUNT, ".");
    BaseOf(MOUNT, "..");
  }

  lemma RefusedJobRemovesNothing(id: Id, names: set<string>, file: string)
    requires JobRefused(id)
    ensures !MayRemove(id, names, file)
  {
    DotsRemoveNothing(names, file);
  }

  lemma {:induction false} InstanceMatches(w: Word)
    ensures Match(w, Instance(w))
  {
    if w != [] {
      InstanceMatches(w[1..]);
      assert Instance(w)[1..] == Instance(w[1..]);
      if w[0].AnyString? {
        assert Match(w[1..], Instance(w)[1..]);
        assert Match(w, Instance(w)[1..]);
      }
    }
  }

  /** Reading brings in no slash. */
  lemma {:induction false} NoSlashRead(t: string, quoted: bool)
    requires '/' !in t
    ensures var r := ReadWord(t, quoted); r.Some? ==> '/' !in Instance(r.value.0)
    decreases |t|
  {
    if t != "" {
      NoSlashRead(t[1..], false);
      NoSlashRead(t[1..], true);
      if |t| > 1 { NoSlashRead(t[2..], false); }
      ConsNoSlash(t, ReadWord(t[1..], false));
      ConsNoSlash(t, ReadWord(t[1..], true));
      if |t| > 1 { ConsNoSlash(t, ReadWord(t[2..], false)); }
    }
  }

  lemma ConsNoSlash(t: string, r: Option<(Word, string)>)
    requires '/' !in t && (r.Some? ==> '/' !in Instance(r.value.0))
    ensures forall p: Piece :: (p.Literal? ==> p.c in t) && r.Some? ==> '/' !in Instance(Cons(p, r).value.0)
  {
    if r.Some? {
      forall p: Piece | p.Literal? ==> p.c in t ensures '/' !in Instance(Cons(p, r).value.0) {
        InstanceConcat([p], r.value.0);
      }
    }
  }

  lemma LiteralInstance(w: Word)
    requires IsLiteral(w)
    ensures w == Lit(Instance(w))
  {
  }

  /** An ID of which the shell takes some other name removes the workspace of that name, or all of them. */
  lemma MisreadJobRemoves(id: Id, w: Word) returns (owner: Id)
    requires '/' !in id && '/' !in Instance(w) && Instance(w) != id
    requires JobOperand(id) == Some(Lit(MOUNT) + w) && w != Lit(".") && w != Lit("..")
    ensures '/' !in owner && owner != id && MustRemove(id, {owner}, owner + "/")
  {
    owner := if Instance(w) != "" then Instance(w) else id + "x";
    if IsLiteral(w) {
      LiteralInstance(w);
      LiteralOperand(w, owner);
    } else {
      PatternOperand(w);
    }
  }

  lemma LiteralOperand(w: Word, owner: Id)
    requires IsLiteral(w) && '/' !in owner && (owner == Instance(w) || Instance(w) == "")
    requires owner != "" && owner != "." && owner != ".."
    ensures OperandRemoves(Lit(MOUNT) + w, {owner}, owner + "/")
  {
    LitInstance(MOUNT);
    InstanceConcat(Lit(MOUNT), w);
    if Instance(w) == "" {
      assert Instance(Lit(MOUNT) + w) == MOUNT && Base(MOUNT) == "";
    } else {
      NameRemoves(owner, owner, owner + "/");
    }
  }

  lemma PatternOperand(w: Word)
    requires !IsLiteral(w)
    ensures OperandRemoves(Lit(MOUNT) + w, {Instance(w)}, Instance(w) + "/")
  {
    var operand, name := Lit(MOUNT) + w, Instance(w);
    assert operand[|MOUNT|..] == w;
    InstanceMatches(w);
    assert Selects(w, name);
    var p :| p in w && !p.Literal?;
    assert p in operand;
  }

  /** The operand reads as dot or dot-dot. */
  predicate DotOperand(id: Id) {
    JobOperand(id) == Some(Lit(MOUNT + ".")) || JobOperand(id) == Some(Lit(MOUNT + ".."))
  }

  /** The operand of an ID is the mount path with the word the ID starts with. */
  lemma OperandWord(id: Id) returns (w: Word)
    requires '/' !in id && id != "" && id != "." && id != ".." && JobOperand(id).Some?
    ensures JobOperand(id) == Some(Lit(MOUNT) + w) && '/' !in Instance(w)
    ensures Instance(w) == id ==> LiteralText(id)
    ensures w == Lit(".") || w == Lit("..") ==> DotOperand(id)
  {
    OperandReads(id);
    var r := ReadWord(id, false).value;
    w := r.0;
    NoSlashRead(id, false);
    WordLength(id, false);
    if Instance(w) == id { ReadsAsItself(id, w); }
    LitConcat(MOUNT, ".");
    LitConcat(MOUNT, "..");
  }

  /** Where the shell's reading settles what runs, every ID but the plain ones and the dots costs others files. */
  lemma OtherJobRemoves(id: Id) returns (owner: Id)
    requires '/' !in id && JobOperand(id).Some? && !Plain(id) && !DotOperand(id)
    ensures '/' !in owner && owner != id && MustRemove(id, {owner}, owner + "/")
  {
    owner := id + "x";
    if id == "" || id == "." || id == ".." {
      DottedJobRemovesEverything(id, {owner}, owner + "/");
    } else {
      var w := OperandWord(id);
      owner := MisreadJobRemoves(id, w);
    }
  }

  lemma DotRemovesNothing(id: Id, names: set<string>, file: string)
    requires DotOperand(id)
    ensures !MustRemove(id, names, file)
  {
    DotsRemoveNothing(names, file);
  }

  // ----- isolation -----

  /** The job is sure to remove some file of another workspace, for something that may be on the claim. */
  ghost predicate Harmful(id: Id) {
    exists names, owner: Id, file ::
      '/' !in owner && owner != id && BelongsTo(file, owner) && MustRemove(id, names, file)
  }

  /** Whatever is on the claim, the job can remove no file of another workspace. */
  ghost predicate Isolated(id: Id) {
    forall names, owner: Id, file ::
      '/' !in owner && owner != id && BelongsTo(file, owner) ==> !MayRemove(id, names, file)
  }

  /** Whatever is on the claim, the job is sure to remove every file of its own workspace. */
  ghost predicate Thorough(id: Id) {
    forall names, file :: BelongsTo(file, id) ==> MustRemove(id, names, file)
  }

  /** The safe IDs: nothing the job can do, whatever it reads, touches another workspace. */
  lemma IsolatedWhenPlainOrRefused(id: Id)
    requires Plain(id) || JobRefused(id)
    ensures Isolated(id)
  {
    forall names, owner: Id, file | '/' !in owner && owner != id && BelongsTo(file, owner)
      ensures !MayRemove(id, names, file) {
      if Plain(id) { PlainJobRemoves(id, names, owner, file); } else { RefusedJobRemovesNothing(id, names, file); }
    }
  }

  /**
   For every slash-free ID whose reading settles what rm runs on: the job is sure to remove a file
   of another workspace if and only if the ID is neither plain nor read as dot or dot-dot.
   */
  lemma HarmfulExactlyUnlessPlainOrDot(id: Id)
    requires '/' !in id && JobOperand(id).Some?
    ensures Harmful(id) <==> !Plain(id) && !DotOperand(id)
  {
    if Plain(id) {
      forall names, owner: Id, file | '/' !in owner && owner != id && BelongsTo(file, owner)
        ensures !MustRemove(id, names, file) {
        PlainJobRemoves(id, names, owner, file);
      }
    } else if DotOperand(id) {
      forall names, file ensures !MustRemove(id, names, file) { DotRemovesNothing(id, names, file); }
    } else {
      var owner := OtherJobRemoves(id);
      assert BelongsTo(owner + "/", owner);
    }
  }

  /** And it is sure to remove exactly its own workspace's files if and only if the ID is plain. */
  lemma CleansExactlyItsOwnWhenPlain(id: Id)
    requires '/' !in id && JobOperand(id).Some?
    ensures !Harmful(id) && Thorough(id) <==> Plain(id)
  {
    HarmfulExactlyUnlessPlainOrDot(id);
    if Plain(id) {
      forall names, file | BelongsTo(file, id) ensures MustRemove(id, names, file) {
        PlainJobRemoves(id, names, id, file);
      }
    } else if DotOperand(id) {
      DotRemovesNothing(id, {}, id + "/");
      assert BelongsTo(id + "/", id);
    }
  }

  /** IDs that make the command a syntax error, that the shell may expand or that give rm an option are not settled. */
  lemma UnsettledIds()
    ensures JobOperand("'a") == None && JobOperand("\"a") == None && JobOperand("{a,b}") == None
    ensures JobOperand("a|") == None && JobOperand("a(") == None && JobOperand("a -i") == None
  {
    UnfinishedIds();
    OperatorFollows();
    OptionFollows();
  }

  lemma UnfinishedIds()
    ensures JobOperand("'a") == None && JobOperand("\"a") == None && JobOperand("{a,b}") == None
  {
    assert ReadWord("'a", false) == None by { assert "'a"[1..] == "a" && "a"[1..] == ""; }
    assert ReadWord("\"a", false) == None && ReadWord("{a,b}", false) == None;
    OperandReads("'a");
    OperandReads("\"a");
    OperandReads("{a,b}");
  }

  lemma OperatorFollows()
    ensures JobOperand("a|") == None && JobOperand("a(") == None
  {
    FollowedBy("|");
    FollowedBy("(");
    assert "a" + "|" == "a|" && "a" + "(" == "a(";
  }

  lemma OptionFollows()
    ensures JobOperand("a -i") == None
  {
    assert "a -i" == "a" + (" " + "-i");
    SecondWord("-i");
    var words := JobWords("a -i").value.0;
    assert words[3] == Lit("-i") && !NoOption(words[3]);
  }

  lemma SecondWord(word: string)
    requires word != "" && (forall c :: c in word ==> Ordinary(c)) && !StartsSpecially(word[0]) && !Ends(word[0])
    ensures JobWords("a" + (" " + word)) == Some(([Lit("rm"), Lit("-rf"), Lit(MOUNT) + Lit("a"), Lit(word)], ""))
  {
    FollowedBy(" " + word);
    SkipBlank(word, map[]);
    assert word + "" == word && ReadCommand("", map[]) == Some(([], ""));
    OrdinaryWord(word, "", map[]);
    assert [Lit(word)] + [] == [Lit(word)];
    assert [Lit("rm"), Lit("-rf"), Lit(MOUNT) + Lit("a")] + [Lit(word)] ==
           [Lit("rm"), Lit("-rf"), Lit(MOUNT) + Lit("a"), Lit(word)];
  }

  lemma FollowedBy(rest: string)
    requires rest != "" && Delimits(rest[0])
    ensures JobWords("a" + rest) == OperandBefore(Lit("a"), rest)
  {
    OrdinaryPrefix("a", rest);
    assert Lit("a") + [] == Lit("a");
    OperandReads("a" + rest);
  }

  /** With a blank in its ID, a job removes the workspace named before the blank, and is not sure to remove its own. */
  lemma BlankSplitsId(names: set<string>, file: string)
    ensures BelongsTo(file, "a") ==> MustRemove("a b", names, file)
    ensures BelongsTo(file, "a b") ==> !MustRemove("a b", names, file)
  {
    assert "a b" == "a" + (" " + "b");
    SecondWord("b");
    LitConcat(MOUNT, "a");
    LitInstance(MOUNT + "a");
    if BelongsTo(file, "a") { NameRemoves("a", "a", file); }
    if BelongsTo(file, "a b") { NameRemoves("a", "a b", file); }
  }

  /** With `*` for an ID, a job removes every workspace's files. */
  lemma StarRemovesEverything(names: set<string>, owner: Id, file: string)
    requires owner in names && '/' !in owner && owner != "" && owner[0] != '.' && BelongsTo(file, owner)
    ensures MustRemove("*", names, file)
  {
    assert ReadWord("*", false) == Some(([AnyString], "")) by {
      assert "*"[1..] == "" && [AnyString] + [] == [AnyString];
    }
    OperandReads("*");
    assert ReadCommand("", map[]) == Some(([], ""));
    var operand := Lit(MOUNT) + [AnyString];
    assert AnyString in operand && operand[|MOUNT|..] == [AnyString];
    StarMatches(owner);
    assert Selects([AnyString], owner);
  }

  lemma {:induction false} StarMatches(name: string)
    ensures Match([AnyString], name)
  {
    if name != "" { StarMatches(name[1..]); } else { assert [AnyString][1..] == []; }
  }
}
