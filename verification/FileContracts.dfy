/**
 Derived file contracts: a write or delete request is bound to the exact state of its file, and
 its compensation to the exact result, so that undoing is exact wherever the request goes through.
 The file tree is a map from resolved paths to contents.
 */
module FileContracts {
  import opened Prelude
  import opened Sagas
  import opened Journal
  import opened Environment
  import opened CoordinatorSpec
  import opened CrashRecovery
  import opened ForwardShape
  import opened Resubmission
  import opened Claims
  import opened Unresolved

  type Files = map<string, string>
  type Arguments = map<string, Value>

  /** What the host computes: path containment, `str`, and SHA-256. */
  datatype Platform = Platform(
    contain: string -> Option<string>,
    show: Value -> string,
    hash: string -> string)

  datatype FileError =
    | NoPath | ContentIsNotText | PathEscapes | TwoPreconditions | ExpectedAbsent | HashChanged | UnknownTool

  const SIZE_LIMIT := 1_000_000

  /** `args.get(key)` */
  function Get(args: Arguments, key: string): Value {
    if key in args then args[key] else Null
  }

  // ── The handlers, as functions of the file tree ───────────────────

  /** `_check_file_precondition`: why the file at this path is not as the arguments expect, if so. */
  function CheckPrecondition(pl: Platform, files: Files, path: string, args: Arguments): Option<FileError> {
    var hash, absent := Get(args, "expected_sha256"), Get(args, "expected_absent");
    if hash != Null && absent != Null then Some(TwoPreconditions)
    else if absent == Flag(true) && path in files then Some(ExpectedAbsent)
    else if hash != Null && (path !in files || Text(pl.hash(files[path])) != hash) then Some(HashChanged)
    else None
  }

  function WriteFile(pl: Platform, files: Files, args: Arguments): Result<Files, FileError> {
    var content := if "content" in args then args["content"] else Text("");
    if !Truthy(Get(args, "path")) then Failure(NoPath)
    else if !content.Text? then Failure(ContentIsNotText)
    else
      match pl.contain(pl.show(args["path"]))
      case None => Failure(PathEscapes)
      case Some(path) =>
        match CheckPrecondition(pl, files, path, args)
        case Some(error) => Failure(error)
        case None => Success(files[path := content.text])
  }

  function DeleteFile(pl: Platform, files: Files, args: Arguments): Result<Files, FileError> {
    if !Truthy(Get(args, "path")) then Success(files)
    else
      match pl.contain(pl.show(args["path"]))
      case None => Failure(PathEscapes)
      case Some(path) =>
        match CheckPrecondition(pl, files, path, args)
        case Some(error) => Failure(error)
        case None => Success(files - {path})
  }

  /** The write or delete inside a restore carries no precondition of its own. */
  function RestoreFile(pl: Platform, files: Files, args: Arguments): Result<Files, FileError> {
    match pl.contain(pl.show(Get(args, "path")))
    case None => Failure(PathEscapes)
    case Some(path) =>
      match CheckPrecondition(pl, files, path, args)
      case Some(error) => Failure(error)
      case None =>
        if Truthy(Get(args, "existed")) then
          WriteFile(pl, files, map["path" := Get(args, "path"), "content" := Get(args, "previous")])
        else
          DeleteFile(pl, files, map["path" := Get(args, "path")])
  }

  /** The built-in tools called forward. */
  function Apply(pl: Platform, files: Files, action: ActionPayload): Result<Files, FileError> {
    if action.toolName == "WRITE_FILE" then WriteFile(pl, files, action.arguments)
    else if action.toolName == "DELETE_FILE" then DeleteFile(pl, files, action.arguments)
    else if action.toolName == "RESTORE_FILE" then RestoreFile(pl, files, action.arguments)
    else if action.toolName == "NOOP" then Success(files)
    else Failure(UnknownTool)
  }

  /** `_comp_delete_file`, which checks no precondition. */
  function CompensateByDelete(pl: Platform, files: Files, args: Arguments): Result<Files, FileError> {
    if !Truthy(Get(args, "path")) then Success(files)
    else
      match pl.contain(pl.show(args["path"]))
      case None => Failure(PathEscapes)
      case Some(path) => Success(files - {path})
  }

  /** The built-in tools called as compensations; the others are not on the allow-list. */
  function Undo(pl: Platform, files: Files, compensation: ActionPayload): Result<Files, FileError> {
    if compensation.toolName == "RESTORE_FILE" then RestoreFile(pl, files, compensation.arguments)
    else if compensation.toolName == "DELETE_FILE" then CompensateByDelete(pl, files, compensation.arguments)
    else if compensation.toolName == "NOOP" then Success(files)
    else Failure(UnknownTool)
  }

  // ── Derivation ────────────────────────────────────────────────────

  datatype DeriveError = MissingArgument | Unprocessable | TooLarge

  datatype Contract = Contract(guarded: Arguments, compensation: ActionPayload)

  /** The request's arguments with the preconditions of the caller replaced by the observed ones. */
  function Guarded(pl: Platform, files: Files, path: string, args: Arguments): Arguments {
    var bare := args - {"expected_sha256", "expected_absent"};
    if path in files
    then bare["expected_sha256" := Text(pl.hash(files[path]))]
    else bare["expected_absent" := Flag(true)]
  }

  function Preimage(files: Files, path: string): Arguments {
    map["path" := Text(path),
        "existed" := Flag(path in files),
        "previous" := Text(if path in files then files[path] else "")]
  }

  /** `_derive_file_contract`. */
  function Derive(pl: Platform, files: Files, tool: string, args: Arguments): Result<Contract, DeriveError> {
    if "path" !in args then Failure(MissingArgument)
    else
      match pl.contain(pl.show(args["path"]))
      case None => Failure(Unprocessable)
      case Some(path) =>
        if path in files && |files[path]| > SIZE_LIMIT then Failure(TooLarge)
        else
          var guarded := Guarded(pl, files, path, args);
          if tool != "WRITE_FILE" then
            Success(Contract(guarded, ActionPayload("RESTORE_FILE", Preimage(files, path)["expected_absent" := Flag(true)])))
          else if !Get(args, "content").Text? then
            Failure(MissingArgument)
          else
            var result := Text(pl.hash(args["content"].text));
            Success(Contract(guarded, ActionPayload("RESTORE_FILE", Preimage(files, path)["expected_sha256" := result])))
  }

  /** Path containment yields proper absolute paths and is idempotent; the hash does not collide. */
  ghost predicate Faithful(pl: Platform) {
    && (forall t {:trigger pl.contain(t)} ::
          pl.contain(t).Some? ==> pl.contain(t).value != "" && pl.contain(pl.contain(t).value) == pl.contain(t))
    && (forall t {:trigger Text(t)} :: pl.show(Text(t)) == t)
    && (forall a, b :: pl.hash(a) == pl.hash(b) ==> a == b)
  }

  /** What the request schemas let through. */
  predicate Validated(tool: string, args: Arguments) {
    && tool in {"WRITE_FILE", "DELETE_FILE"}
    && Get(args, "path").Text? && args["path"].text != ""
    && (tool == "WRITE_FILE" ==> Get(args, "content").Text?)
  }

  // ── The file system, changed in place ─────────────────────────────

  class FileSystem {
    const platform: Platform
    var files: Files

    constructor (platform: Platform, files: Files)
      ensures this.platform == platform && this.files == files
    {
      this.platform, this.files := platform, files;
    }

    /** The files after a call: changed as the specification says, or untouched when it refuses. */
    ghost predicate Leaves(before: Files, outcome: Result<Files, FileError>, refusal: Option<FileError>)
      reads this
    {
      match outcome
      case Success(after) => files == after && refusal == None
      case Failure(error) => files == before && refusal == Some(error)
    }

    method CheckFilePrecondition(path: string, args: Arguments) returns (refusal: Option<FileError>)
      ensures refusal == CheckPrecondition(platform, files, path, args)
    {
      var expectedHash, expectedAbsent := Get(args, "expected_sha256"), Get(args, "expected_absent");
      if expectedHash != Null && expectedAbsent != Null { return Some(TwoPreconditions); }
      var present := path in files;
      if expectedAbsent == Flag(true) && present { return Some(ExpectedAbsent); }
      if expectedHash != Null && (!present || Text(platform.hash(files[path])) != expectedHash) {
        return Some(HashChanged);
      }
      return None;
    }

    method HandleWriteFile(args: Arguments) returns (refusal: Option<FileError>)
      modifies this
      ensures Leaves(old(files), WriteFile(platform, old(files), args), refusal)
    {
      var content := if "content" in args then args["content"] else Text("");
      if !Truthy(Get(args, "path")) { return Some(NoPath); }
      if !content.Text? { return Some(ContentIsNotText); }
      var path := platform.contain(platform.show(args["path"]));
      if path.None? { return Some(PathEscapes); }
      refusal := CheckFilePrecondition(path.value, args);
      if refusal.None? {
        files := files[path.value := content.text];
      }
    }

    method HandleDeleteFile(args: Arguments) returns (refusal: Option<FileError>)
      modifies this
      ensures Leaves(old(files), DeleteFile(platform, old(files), args), refusal)
    {
      if !Truthy(Get(args, "path")) { return None; }
      var path := platform.contain(platform.show(args["path"]));
      if path.None? { return Some(PathEscapes); }
      refusal := CheckFilePrecondition(path.value, args);
      if refusal.Some? { return; }
      if path.value !in files {
        assert files - {path.value} == files;
        return;
      }
      files := files - {path.value};
    }

    method HandleRestoreFile(args: Arguments) returns (refusal: Option<FileError>)
      modifies this
      ensures Leaves(old(files), RestoreFile(platform, old(files), args), refusal)
    {
      var path := platform.contain(platform.show(Get(args, "path")));
      if path.None? { return Some(PathEscapes); }
      refusal := CheckFilePrecondition(path.value, args);
      if refusal.Some? { return; }
      if Truthy(Get(args, "existed")) {
        refusal := HandleWriteFile(map["path" := Get(args, "path"), "content" := Get(args, "previous")]);
      } else {
        refusal := HandleDeleteFile(map["path" := Get(args, "path")]);
      }
    }

    /** Reads the file and builds the contract key by key; the file system is only observed. */
    method DeriveFileContract(tool: string, args: Arguments) returns (r: Result<Contract, DeriveError>)
      ensures r == Derive(platform, files, tool, args)
    {
      if "path" !in args { return Failure(MissingArgument); }
      var contained := platform.contain(platform.show(args["path"]));
      if contained.None? { return Failure(Unprocessable); }
      var path := contained.value;
      var existed := path in files;
      var previous := if existed then files[path] else "";
      if |previous| > SIZE_LIMIT { return Failure(TooLarge); }
      var guarded := args;
      guarded := guarded - {"expected_sha256"};
      guarded := guarded - {"expected_absent"};
      assert guarded == args - {"expected_sha256", "expected_absent"};
      if existed {
        guarded := guarded["expected_sha256" := Text(platform.hash(previous))];
      } else {
        guarded := guarded["expected_absent" := Flag(true)];
      }
      var compensationArgs: Arguments := map["path" := Text(path), "existed" := Flag(existed), "previous" := Text(previous)];
      if tool == "WRITE_FILE" {
        if !Get(guarded, "content").Text? { return Failure(MissingArgument); }
        compensationArgs := compensationArgs["expected_sha256" := Text(platform.hash(guarded["content"].text))];
      } else {
        compensationArgs := compensationArgs["expected_absent" := Flag(true)];
      }
      return Success(Contract(guarded, ActionPayload("RESTORE_FILE", compensationArgs)));
    }
  }

  // ── One request ───────────────────────────────────────────────────

  /** The file at this path is the same in both trees: absent in both, or present with equal contents. */
  predicate SameFile(a: Files, b: Files, path: string) {
    (path in a <==> path in b) && (path in a ==> a[path] == b[path])
  }

  function Target(pl: Platform, args: Arguments): Option<string> {
    pl.contain(pl.show(Get(args, "path")))
  }

  /** What the request leaves at its path. */
  predicate Achieved(tool: string, args: Arguments, files: Files, path: string) {
    if tool == "WRITE_FILE" then path in files && Text(files[path]) == Get(args, "content") else path !in files
  }

  // ── What the handlers accept ──────────────────────────────────────

  /** The file is as the arguments expect, and they expect one thing at most. */
  predicate Met(pl: Platform, files: Files, path: string, args: Arguments) {
    var hash, absent := Get(args, "expected_sha256"), Get(args, "expected_absent");
    && (hash == Null || absent == Null)
    && (absent == Flag(true) ==> path !in files)
    && (hash != Null ==> path in files && hash == Text(pl.hash(files[path])))
  }

  /** A precondition fails for one reason: two were supplied, a file is there, or it is not the expected one. */
  lemma PreconditionTable(pl: Platform, files: Files, path: string, args: Arguments)
    ensures var refusal := CheckPrecondition(pl, files, path, args);
      var hash, absent := Get(args, "expected_sha256"), Get(args, "expected_absent");
      && (refusal == None <==> Met(pl, files, path, args))
      && (refusal == Some(TwoPreconditions) <==> hash != Null && absent != Null)
      && (refusal == Some(ExpectedAbsent) <==> hash == Null && absent == Flag(true) && path in files)
  {
  }

  /** A write goes through exactly with a path in the workspace, a text and its precondition met; it sets that file alone. */
  lemma WriteIff(pl: Platform, files: Files, args: Arguments)
    ensures var r := WriteFile(pl, files, args);
      var target, content := Target(pl, args), if "content" in args then args["content"] else Text("");
      && (r.Success? <==> Truthy(Get(args, "path")) && content.Text? && target.Some? && Met(pl, files, target.value, args))
      && (r.Success? ==> r.value == files[target.value := content.text])
  {
    hide CheckPrecondition, Met;
    if Target(pl, args).Some? {
      PreconditionTable(pl, files, Target(pl, args).value, args);
    }
  }

  /** A deletion without a path succeeds and does nothing; otherwise it goes through exactly with its precondition met. */
  lemma DeleteIff(pl: Platform, files: Files, args: Arguments)
    ensures var r, target := DeleteFile(pl, files, args), Target(pl, args);
      if !Truthy(Get(args, "path")) then r == Success(files)
      else
        && (r.Success? <==> target.Some? && Met(pl, files, target.value, args))
        && (r.Success? ==> r.value == files - {target.value})
  {
    hide CheckPrecondition, Met;
    if Target(pl, args).Some? {
      PreconditionTable(pl, files, Target(pl, args).value, args);
    }
  }

  /** A restore checks its own precondition and then writes or deletes without one. */
  lemma RestoreIff(pl: Platform, files: Files, args: Arguments)
    requires Truthy(Get(args, "path"))
    ensures var r, target := RestoreFile(pl, files, args), Target(pl, args);
      var existed, previous := Truthy(Get(args, "existed")), Get(args, "previous");
      && (r.Success? <==> target.Some? && Met(pl, files, target.value, args) && (existed ==> previous.Text?))
      && (r.Success? ==> r.value == if existed then files[target.value := previous.text] else files - {target.value})
  {
    hide CheckPrecondition;
    if Target(pl, args).Some? {
      PreconditionTable(pl, files, Target(pl, args).value, args);
    }
    var path := Get(args, "path");
    var rewrite: Arguments := map["path" := path, "content" := Get(args, "previous")];
    var remove: Arguments := map["path" := path];
    assert Target(pl, rewrite) == Target(pl, args) == Target(pl, remove);
    WriteIff(pl, files, rewrite);
    DeleteIff(pl, files, remove);
  }

  /** The compensation tools: a restore, a deletion that checks nothing, and one that does nothing; no other is allowed. */
  lemma UndoTools(pl: Platform, files: Files, compensation: ActionPayload)
    ensures var r, args := Undo(pl, files, compensation), compensation.arguments;
      && (compensation.toolName == "NOOP" ==> r == Success(files))
      && (compensation.toolName == "DELETE_FILE" ==>
            if !Truthy(Get(args, "path")) then r == Success(files)
            else (r.Success? <==> Target(pl, args).Some?) && (r.Success? ==> r.value == files - {Target(pl, args).value}))
      && (compensation.toolName !in {"NOOP", "DELETE_FILE", "RESTORE_FILE"} ==> r == Failure(UnknownTool))
  {
  }

  // ── When a contract is derived ────────────────────────────────────

  /** The file is short enough to be kept as a preimage. */
  predicate Keepable(files: Files, path: string) {
    path in files ==> |files[path]| <= 1_000_000
  }

  /**
   A validated request gets its contract exactly when its path is in the workspace and the file there
   is absent or at most a million characters long; otherwise the error says which of the two it is not.
   The contract changes none of the request's other arguments.
   */
  lemma DerivedIff(pl: Platform, files: Files, tool: string, args: Arguments)
    requires Validated(tool, args)
    ensures var r, target := Derive(pl, files, tool, args), Target(pl, args);
      && (r.Success? <==> target.Some? && Keepable(files, target.value))
      && (target.None? ==> r == Failure(Unprocessable))
      && (target.Some? && !Keepable(files, target.value) ==> r == Failure(TooLarge))
      && (r.Success? ==>
            && r.value.compensation.toolName == "RESTORE_FILE"
            && r.value.guarded - {"expected_sha256", "expected_absent"} == args - {"expected_sha256", "expected_absent"})
  {
  }

  /** Requests that were not validated fail on what is missing, after the checks that do not need it. */
  lemma MissingIff(pl: Platform, files: Files, tool: string, args: Arguments)
    ensures Derive(pl, files, tool, args) == Failure(MissingArgument) <==>
      || "path" !in args
      || (tool == "WRITE_FILE" && !Get(args, "content").Text?
          && Target(pl, args).Some? && Keepable(files, Target(pl, args).value))
  {
  }

  /**
   The preconditions of a derived request are met exactly on the trees that agree with the observed
   one at its path, and the refusal tells in which way another tree does not: the file has appeared,
   or it has changed or gone.
   */
  lemma PreconditionIsExact(pl: Platform, seen: Files, now: Files, path: string, args: Arguments)
    requires Faithful(pl)
    ensures var refusal := CheckPrecondition(pl, now, path, Guarded(pl, seen, path, args));
      && (refusal == None <==> SameFile(seen, now, path))
      && (refusal == Some(ExpectedAbsent) <==> path !in seen && path in now)
      && (refusal == Some(HashChanged) <==> path in seen && !SameFile(seen, now, path))
      && refusal != Some(TwoPreconditions)
  {
  }

  /**
   The guarded request goes through exactly on the trees that agree with the observed one at its
   path. There it changes that path alone, as the request says; otherwise it is refused.
   */
  lemma GuardedRequestIsExact(pl: Platform, seen: Files, now: Files, tool: string, args: Arguments)
    requires Faithful(pl) && Validated(tool, args) && Derive(pl, seen, tool, args).Success?
    ensures var c := Derive(pl, seen, tool, args).value;
      var after := Apply(pl, now, ActionPayload(tool, c.guarded));
      && Target(pl, args).Some?
      && var path := Target(pl, args).value;
      && (after.Success? <==> SameFile(seen, now, path))
      && (after.Success? ==> Achieved(tool, args, after.value, path) && after.value - {path} == now - {path})
  {
  }

  /**
   The derived restore goes through exactly on the trees where the path still holds what the
   request left there. There it puts back the observed file and touches nothing else.
   */
  lemma DerivedRestoreIsExact(pl: Platform, seen: Files, now: Files, tool: string, args: Arguments)
    requires Faithful(pl) && Validated(tool, args) && Derive(pl, seen, tool, args).Success?
    ensures var c := Derive(pl, seen, tool, args).value;
      var after := Undo(pl, now, c.compensation);
      && Target(pl, args).Some?
      && var path := Target(pl, args).value;
      && (after.Success? <==> Achieved(tool, args, now, path))
      && (after.Success? ==> SameFile(after.value, seen, path) && after.value - {path} == now - {path})
  {
    hide Apply, Validated, Undo;
    var c := Derive(pl, seen, tool, args).value;
    var path := Target(pl, args).value;
    assert Undo(pl, now, c.compensation) == RestoreFile(pl, now, c.compensation.arguments) by { UndoByRestore(pl, now, c.compensation); }
    ValidatedContent(tool, args);
    var rest := c.compensation.arguments;
    assert Get(rest, "path") == Text(path) && Get(rest, "existed") == Flag(path in seen);
    if tool == "WRITE_FILE" {
      assert Get(rest, "expected_sha256") == Text(pl.hash(args["content"].text)) && Get(rest, "expected_absent") == Null;
    } else {
      assert Get(rest, "expected_sha256") == Null && Get(rest, "expected_absent") == Flag(true);
    }
  }

  lemma UndoByRestore(pl: Platform, files: Files, compensation: ActionPayload)
    requires compensation.toolName == "RESTORE_FILE"
    ensures Undo(pl, files, compensation) == RestoreFile(pl, files, compensation.arguments)
  {
  }

  lemma ValidatedContent(tool: string, args: Arguments)
    requires Validated(tool, args)
    ensures "path" in args && args["path"].Text? && (tool == "WRITE_FILE" <==> tool != "DELETE_FILE")
    ensures tool == "WRITE_FILE" ==> "content" in args && args["content"].Text?
  {
  }

  /** Undoing right after doing, wherever the request goes through and whatever tree it was derived in. */
  lemma RequestThenRestore(pl: Platform, seen: Files, now: Files, tool: string, args: Arguments)
    requires Faithful(pl) && Validated(tool, args) && Derive(pl, seen, tool, args).Success?
    ensures var c := Derive(pl, seen, tool, args).value;
      var after := Apply(pl, now, ActionPayload(tool, c.guarded));
      after.Success? ==> Undo(pl, after.value, c.compensation) == Success(now)
  {
    hide Apply, Undo, Derive, Faithful, Validated;
    var c := Derive(pl, seen, tool, args).value;
    GuardedRequestIsExact(pl, seen, now, tool, args);
    var after := Apply(pl, now, ActionPayload(tool, c.guarded));
    if after.Success? {
      DerivedRestoreIsExact(pl, seen, after.value, tool, args);
      SameTree(Undo(pl, after.value, c.compensation).value, now, Target(pl, args).value);
    }
  }

  lemma SameTree(a: Files, b: Files, path: string)
    requires SameFile(a, b, path) && a - {path} == b - {path}
    ensures a == b
  {
    forall p
      ensures SameFile(a, b, p)
    {
      if p != path {
        assert p in a <==> p in a - {path};
        assert p in b <==> p in b - {path};
        assert p in a ==> a[p] == (a - {path})[p];
        assert p in b ==> b[p] == (b - {path})[p];
      }
    }
    assert forall p :: p in a ==> SameFile(a, b, p);
    assert forall p :: p in b ==> SameFile(a, b, p);
    assert a == b;
  }

  /** A request that was derived just now is never refused. */
  lemma FreshRequestGoesThrough(pl: Platform, files: Files, tool: string, args: Arguments)
    requires Faithful(pl) && Validated(tool, args) && Derive(pl, files, tool, args).Success?
    ensures Apply(pl, files, ActionPayload(tool, Derive(pl, files, tool, args).value.guarded)).Success?
  {
    hide Apply, Undo, Derive, Faithful, Validated;
    GuardedRequestIsExact(pl, files, files, tool, args);
  }

  /** Repeating a finished restore is refused or changes nothing. */
  lemma RestoreTwice(pl: Platform, seen: Files, now: Files, tool: string, args: Arguments)
    requires Faithful(pl) && Validated(tool, args) && Derive(pl, seen, tool, args).Success?
    ensures var comp := Derive(pl, seen, tool, args).value.compensation;
      var once := Undo(pl, now, comp);
      once.Success? ==>
        var twice := Undo(pl, once.value, comp);
        && (twice.Success? ==> twice.value == once.value)
        && (twice.Success? <==> Achieved(tool, args, seen, Target(pl, args).value))
  {
    hide Apply, Undo, Derive, Faithful, Validated;
    var comp := Derive(pl, seen, tool, args).value.compensation;
    DerivedRestoreIsExact(pl, seen, now, tool, args);
    var once := Undo(pl, now, comp);
    if once.Success? {
      DerivedRestoreIsExact(pl, seen, once.value, tool, args);
      var twice := Undo(pl, once.value, comp);
      if twice.Success? {
        SameTree(twice.value, once.value, Target(pl, args).value);
      }
    }
  }

  // ── A list of requests, each derived just before its step ─────────

  datatype Request = Request(tool: string, args: Arguments)

  datatype Done = Done(files: Files, undo: seq<ActionPayload>)

  datatype Stop = NotDerived(DeriveError) | NotApplied(FileError)

  function Forward(pl: Platform, files: Files, requests: seq<Request>): Result<Done, Stop>
    decreases |requests|
  {
    if requests == [] then Success(Done(files, []))
    else
      match Derive(pl, files, requests[0].tool, requests[0].args)
      case Failure(e) => Failure(NotDerived(e))
      case Success(c) =>
        match Apply(pl, files, ActionPayload(requests[0].tool, c.guarded))
        case Failure(e) => Failure(NotApplied(e))
        case Success(after) =>
          match Forward(pl, after, requests[1..])
          case Failure(stop) => Failure(stop)
          case Success(done) => Success(Done(done.files, [c.compensation] + done.undo))
  }

  /** The compensations from the last to the first, as the coordinator calls them. */
  function Backward(pl: Platform, files: Files, undo: seq<ActionPayload>): Result<Files, FileError>
    decreases |undo|
  {
    if undo == [] then Success(files)
    else
      match Undo(pl, files, undo[|undo| - 1])
      case Failure(e) => Failure(e)
      case Success(before) => Backward(pl, before, undo[..|undo| - 1])
  }

  lemma {:induction false} BackwardEndsWithFirst(pl: Platform, files: Files, first: ActionPayload, undo: seq<ActionPayload>)
    ensures Backward(pl, files, [first] + undo) ==
      match Backward(pl, files, undo)
      case Failure(e) => Failure(e)
      case Success(before) => Undo(pl, before, first)
    decreases |undo|
  {
    hide Undo;
    var all := [first] + undo;
    if undo == [] {
      assert all[..0] == [];
      assert Backward(pl, files, undo) == Success(files);
      assert all[|all| - 1] == first;
    } else {
      assert all[|all| - 1] == undo[|undo| - 1];
      assert all[..|all| - 1] == [first] + undo[..|undo| - 1];
      match Undo(pl, files, undo[|undo| - 1])
      case Failure(_) =>
      case Success(before) => BackwardEndsWithFirst(pl, before, first, undo[..|undo| - 1]);
    }
  }

  /**
   Any requests, each derived just before its step: none is refused by its precondition, and the
   restores in reverse order give back the initial tree.
   */
  lemma {:induction false} DerivedChainRestores(pl: Platform, files: Files, requests: seq<Request>)
    requires Faithful(pl) && forall r <- requests :: Validated(r.tool, r.args)
    ensures var forward := Forward(pl, files, requests);
      && (forward.Failure? ==> forward.error.NotDerived?)
      && (forward.Success? ==> Backward(pl, forward.value.files, forward.value.undo) == Success(files))
    decreases |requests|
  {
    hide Apply, Undo, Derive, Faithful, Validated;
    if requests != [] {
      var r := requests[0];
      var derived := Derive(pl, files, r.tool, r.args);
      if derived.Success? {
        FreshRequestGoesThrough(pl, files, r.tool, r.args);
        RequestThenRestore(pl, files, files, r.tool, r.args);
        var after := Apply(pl, files, ActionPayload(r.tool, derived.value.guarded)).value;
        DerivedChainRestores(pl, after, requests[1..]);
        var rest := Forward(pl, after, requests[1..]);
        if rest.Success? {
          BackwardEndsWithFirst(pl, rest.value.files, derived.value.compensation, rest.value.undo);
        }
      }
    }
  }

  /** The requests fail only where one of them, met by the tree the ones before it left, gets no contract. */
  lemma {:induction false} ForwardFailsAt(pl: Platform, files: Files, requests: seq<Request>) returns (k: nat, now: Files)
    requires Faithful(pl) && forall r <- requests :: Validated(r.tool, r.args)
    requires Forward(pl, files, requests).Failure?
    ensures k < |requests|
    ensures Forward(pl, files, requests[..k]).Success? && Forward(pl, files, requests[..k]).value.files == now
    ensures var target := Target(pl, requests[k].args); target.None? || !Keepable(now, target.value)
    decreases |requests|
  {
    hide Apply, Undo, Derive, Faithful, Validated, Keepable;
    var r := requests[0];
    DerivedIff(pl, files, r.tool, r.args);
    var derived := Derive(pl, files, r.tool, r.args);
    if derived.Failure? {
      k, now := 0, files;
      assert requests[..0] == [];
    } else {
      FreshRequestGoesThrough(pl, files, r.tool, r.args);
      var after := Apply(pl, files, ActionPayload(r.tool, derived.value.guarded)).value;
      k, now := ForwardFailsAt(pl, after, requests[1..]);
      assert requests[..k + 1][0] == r && requests[..k + 1][1..] == requests[1..][..k];
      k := k + 1;
    }
  }

  // ── Sagas of file requests ────────────────────────────────────────

  function ToOption(r: Result<Files, FileError>): Option<Files> {
    if r.Success? then Some(r.value) else None
  }

  /**
   The environment whose tools are the file handlers of the program's own sandbox. A handler that
   refuses raises, and there is neither a resolver nor idempotent repetition.
   */
  function FileEnv(pl: Platform, choice: nat -> Choice): Env<Files> {
    Env((action, files) => ToOption(Apply(pl, files, action)),
        (compensation, files) => ToOption(Undo(pl, files, compensation)),
        true, false, false, choice)
  }

  /** Every call of a handler comes back with its answer; the process may die at any checkpoint. */
  ghost predicate HandlersAnswer(choice: nat -> Choice) {
    forall n: nat :: choice(n).call == Succeed && choice(n).undoCall == Succeed
  }

  /** The step carries a contract derived in some tree. */
  ghost predicate DerivedStep(pl: Platform, step: SagaStep) {
    exists seen: Files, args: Arguments :: DerivedIn(pl, step, seen, args)
  }

  predicate DerivedIn(pl: Platform, step: SagaStep, seen: Files, args: Arguments) {
    var tool := step.action.toolName;
    && Validated(tool, args)
    && Derive(pl, seen, tool, args) == Success(Contract(step.action.arguments, step.compensation))
  }

  lemma DerivedStepIsInvertible(pl: Platform, choice: nat -> Choice, step: SagaStep)
    requires Faithful(pl) && DerivedStep(pl, step)
    ensures Invertible(FileEnv(pl, choice), step.action, step.compensation)
  {
    hide Apply, Undo, Derive, Faithful, Validated;
    var seen, args :| DerivedIn(pl, step, seen, args);
    var env := FileEnv(pl, choice);
    forall now: Files | env.act(step.action, now).Some?
      ensures env.undo(step.compensation, env.act(step.action, now).value) == Some(now)
    {
      RequestThenRestore(pl, seen, now, step.action.toolName, args);
    }
  }

  lemma FileHandlers(pl: Platform, choice: nat -> Choice)
    requires HandlersAnswer(choice)
    ensures var env := FileEnv(pl, choice);
      TruthfulCalls(env) && ReliableUndo(env) && Unaided(env) && env.refusalRaises
  {
  }

  ghost predicate DerivedCalls(pl: Platform, calls: seq<Call>) {
    forall i | 0 <= i < |calls| :: DerivedSteps(pl, calls[i].steps)
  }

  ghost predicate DerivedSteps(pl: Platform, steps: seq<SagaStep>) {
    forall i | 0 <= i < |steps| :: DerivedStep(pl, steps[i])
  }

  /**
   Sagas of derived file requests, in the program's own sandbox. That compensations undo what the
   requests do need not be assumed, and nobody resolves interrupted calls. The tree is put back
   after every rollback, and after a refusal; after a crash under a live status it is put back by
   recovery exactly when no call was under way, and is left as it is otherwise.
   */
  lemma FileSagaWithoutHelp(
    pl: Platform, choice: nat -> Choice, s: Sys<Files>, goal: string, tenantId: string, now: real, calls: seq<Call>)
    requires Faithful(pl) && Fresh(s) && HandlersAnswer(choice) && DerivedCalls(pl, calls)
    ensures var env := FileEnv(pl, choice);
      UnaidedEnd(env, ServeCalls(env, Start(s, goal, tenantId, now), calls), s.world)
  {
    hide Apply, Undo, Derive, Faithful, DerivedStep, Invertible, HandlersAnswer, Fresh, ServeCalls, Start, FileEnv,
      UnaidedEnd, TruthfulCalls, ReliableUndo, Unaided;
    var env := FileEnv(pl, choice);
    FileHandlers(pl, choice);
    forall i | 0 <= i < |calls|
      ensures Invertibles(env, calls[i].steps)
    {
      forall k | 0 <= k < |calls[i].steps|
        ensures Invertible(env, calls[i].steps[k].action, calls[i].steps[k].compensation)
      {
        assert DerivedSteps(pl, calls[i].steps);
        DerivedStepIsInvertible(pl, choice, calls[i].steps[k]);
      }
    }
    UnaidedSaga(env, s, goal, tenantId, now, calls);
  }

  /** With a sandbox that can be asked about interrupted calls, recovery puts the tree back wherever the process dies. */
  lemma FileSagaWithResolver(
    pl: Platform, choice: nat -> Choice, s: Sys<Files>, goal: string, tenantId: string, now: real,
    steps: seq<SagaStep>, decisions: seq<Decision>, attempts: nat)
    requires Faithful(pl) && Fresh(s) && HandlersAnswer(choice) && DerivedSteps(pl, steps)
    requires TruthfulResolver(FileEnv(pl, choice).(hasResolver := true))
    ensures var env := FileEnv(pl, choice).(hasResolver := true);
      var life := Serve(env, ExecuteSaga(env, Start(s, goal, tenantId, now).s, steps), decisions);
      && life.end in {AllCommitted, Paused, Restored, Crashed, Quarantined}
      && (life.end in {Restored, Quarantined} ==> life.s.world == s.world)
      && (life.end == Crashed ==>
            var recovery := RecoverRepeatedly(env, life.s, attempts);
            recovery.end in {Crashed, Restored} && (recovery.end == Restored ==> recovery.s.world == s.world))
  {
    var env := FileEnv(pl, choice).(hasResolver := true);
    assert Truthful(env) by { FileHandlers(pl, choice); ResolverIsTruthful(pl, choice); }
    hide Apply, Undo, Derive, Faithful, DerivedStep, Invertible, Truthful, Fresh, HandlersAnswer,
      Serve, ExecuteSaga, Start, RecoverRepeatedly, FileEnv;
    forall i | 0 <= i < |steps|
      ensures Invertible(env, steps[i].action, steps[i].compensation)
    {
      DerivedStepIsInvertible(pl, choice, steps[i]);
      SameToolsInvert(FileEnv(pl, choice), env, steps[i].action, steps[i].compensation);
    }
    CrashAnywhereThenRestored(env, s, goal, tenantId, now, steps, decisions, attempts);
  }

  lemma ResolverIsTruthful(pl: Platform, choice: nat -> Choice)
    requires HandlersAnswer(choice) && TruthfulResolver(FileEnv(pl, choice).(hasResolver := true))
    ensures Truthful(FileEnv(pl, choice).(hasResolver := true))
  {
  }

  lemma SameToolsInvert<W(!new)>(env: Env<W>, env': Env<W>, action: ActionPayload, compensation: ActionPayload)
    requires env'.act == env.act && env'.undo == env.undo && Invertible(env, action, compensation)
    ensures Invertible(env', action, compensation)
  {
  }

  // ── A stale precondition ──────────────────────────────────────────

  /** A derived request that is new to the saga and passes the gates. */
  ghost predicate Submittable(s: Sys<Files>, step: SagaStep) {
    && IndexOf(s.ledger.entries, step.stepId) == |s.ledger.entries|
    && !AlreadyCommitted(s.ledger, step.idempotencyKey)
    && (step.requiresApproval ==> step.approved)
  }

  /**
   With nothing else going wrong, a derived request commits if and only if the file at its path is
   the one it was derived from. Otherwise its handler raises: though nothing was changed, its record
   ends AMBIGUOUS and the saga COMPENSATION_FAILED, all earlier requests being undone.
   */
  lemma StaleRequestIsQuarantined(
    pl: Platform, s: Sys<Files>, w0: Files, step: SagaStep, seen: Files, args: Arguments)
    requires Faithful(pl) && DerivedIn(pl, step, seen, args)
    requires Ready(FileEnv(pl, Smooth()), s, w0) && Submittable(s, step)
    ensures s.saga.Some? && Target(pl, args).Some?
    ensures var n, t := |s.ledger.entries|, ExecuteSteps(FileEnv(pl, Smooth()), s, [step]);
      if SameFile(seen, s.world, Target(pl, args).value)
      then t.end == AllCommitted
      else
        && t.end == Quarantined && t.s.world == w0
        && |t.s.ledger.entries| == n + 1 && t.s.ledger.entries[n].stepId == step.stepId
        && t.s.ledger.entries[n].state == EffectState.Ambiguous
        && t.s.ledger.status == Some(SagaStatus.CompensationFailed)
        && forall i | 0 <= i < n :: t.s.ledger.entries[i].state == EffectState.Compensated
  {
    hide Apply, Undo, Derive, Faithful, Validated, Ready, Smooth, ExecuteSteps, Invertible, AlreadyCommitted, IndexOf;
    var env := FileEnv(pl, Smooth());
    GuardedRequestIsExact(pl, seen, s.world, step.action.toolName, args);
    assert step.action == ActionPayload(step.action.toolName, step.action.arguments);
    DerivedStepIsInvertible(pl, Smooth(), step);
    ReadyIsShaped(env, s, w0);
    if SameFile(seen, s.world, Target(pl, args).value) {
      FreshRequestCommits(env, s, step);
    } else {
      RefusalIsQuarantined(env, s, w0, step);
    }
  }

  lemma FreshRequestCommits(env: Env<Files>, s: Sys<Files>, step: SagaStep)
    requires s.saga.Some? && env.choice == Smooth() && Runnable(env, s, step)
    ensures ExecuteSteps(env, s, [step]).end == AllCommitted
  {
    SmoothAttempt(env, s, [step]);
    hide AttemptStep, Runnable;
    assert [step][1..] == [];
  }
}
