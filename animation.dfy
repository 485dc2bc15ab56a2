/**
 * Rendering and publishing an animation (apps/worker/os.ts): the scene class
 * name taken from the generated code, the renderer command, the search for the
 * renderer's output video, the fallback renderer, and the choice between an
 * object-store URL and a local `file://` URL.
 *
 * The file system, the subprocess, the fallback encoder, the object store and
 * the database are not executed: what each of them does is an input (an
 * `Outcome`, a `Result` or a set of existing paths).
 */
module Animation {
  import opened Wrappers
  import opened Text

  // ---------------------------------------------------------------------------
  // Scene class name
  // ---------------------------------------------------------------------------

  const ClassKeyword: string := "class"
  const DefaultSceneClass: string := "Scene"

  /** End of the run of word characters starting at `k`. */
  function WordEnd(s: string, k: nat): (r: nat)
    requires k <= |s|
    ensures k <= r <= |s|
    ensures forall i :: k <= i < r ==> IsWordChar(s[i])
    ensures r < |s| ==> !IsWordChar(s[r])
    decreases |s| - k
  {
    if k < |s| && IsWordChar(s[k]) then WordEnd(s, k + 1) else k
  }

  /**
   * The name captured by `class\s+(\w+)\s*\(` when the match starts at `k`.
   * Backtracking cannot help either run: a shorter whitespace run leaves a
   * whitespace character where `\w` is needed, and a shorter word leaves a
   * word character where `\s` or `(` is needed, so only the maximal runs count.
   */
  function ClassDeclAt(s: string, k: nat): (r: Option<string>)
    requires k <= |s|
    ensures r.Some? ==> |r.value| > 0 && forall i :: 0 <= i < |r.value| ==> IsWordChar(r.value[i])
  {
    if !StartsAt(s, k, ClassKeyword) then None
    else
      var a := k + |ClassKeyword|;
      var b := SkipWs(s, a);
      if b == a then None
      else
        var c := WordEnd(s, b);
        if c == b then None
        else
          var d := SkipWs(s, c);
          if d < |s| && s[d] == '(' then Some(s[b..c]) else None
  }

  /** The leftmost class declaration at or after `k`. */
  function FirstClassDecl(s: string, k: nat): (r: Option<string>)
    requires k <= |s|
    ensures r.Some? ==> |r.value| > 0 && forall i :: 0 <= i < |r.value| ==> IsWordChar(r.value[i])
    decreases |s| - k
  {
    match ClassDeclAt(s, k)
    case Some(name) => Some(name)
    case None => if k == |s| then None else FirstClassDecl(s, k + 1)
  }

  /** The class the renderer is asked to render: the first declared class, else `Scene`. */
  function SceneClassName(code: string): (r: string)
    ensures |r| > 0 && forall i :: 0 <= i < |r| ==> IsWordChar(r[i])
  {
    match FirstClassDecl(code, 0)
    case Some(name) => name
    case None => DefaultSceneClass
  }

  /** The scan passes over positions where no declaration matches. */
  lemma {:induction false} ScanSkips(s: string, k: nat, m: nat)
    requires k <= m <= |s|
    requires forall j :: k <= j < m ==> ClassDeclAt(s, j).None?
    ensures FirstClassDecl(s, k) == FirstClassDecl(s, m)
    decreases m - k
  {
    if k < m {
      ScanSkips(s, k + 1, m);
    }
  }

  /**
   * Code in which no declaration matches renders the default class, even when
   * the word `class` occurs in it.
   */
  lemma NoClassRendersDefault(code: string)
    requires forall j :: 0 <= j <= |code| ==> ClassDeclAt(code, j).None?
    ensures SceneClassName(code) == DefaultSceneClass
  {
    ScanSkips(code, 0, |code|);
  }

  /** A whitespace run that ends at `b` is skipped up to `b`. */
  lemma SkipWsExact(s: string, a: nat, b: nat)
    requires a <= b <= |s|
    requires forall i :: a <= i < b ==> IsWs(s[i])
    requires b < |s| ==> !IsWs(s[b])
    ensures SkipWs(s, a) == b
  {
  }

  /** A word run that ends at `c` ends the word at `c`. */
  lemma WordEndExact(s: string, b: nat, c: nat)
    requires b <= c <= |s|
    requires forall i :: b <= i < c ==> IsWordChar(s[i])
    requires c < |s| ==> !IsWordChar(s[c])
    ensures WordEnd(s, b) == c
  {
  }

  /** A declaration whose runs end where the regular expression needs them to matches at `k`. */
  lemma DeclMatchesAt(s: string, k: nat, b: nat, c: nat, d: nat)
    requires StartsAt(s, k, ClassKeyword)
    requires k + |ClassKeyword| < b < c <= d < |s|
    requires SkipWs(s, k + |ClassKeyword|) == b && WordEnd(s, b) == c && SkipWs(s, c) == d
    requires s[d] == '('
    ensures FirstClassDecl(s, k) == Some(s[b..c])
  {
  }

  /**
   * The name of the first `class <Name>(` declaration, with any whitespace
   * before the parenthesis, is the class rendered, whatever follows it.
   */
  lemma FirstDeclarationNamesScene(code: string, pre: string, gap: string, name: string, gap2: string, rest: string)
    requires code == pre + ClassKeyword + gap + name + gap2 + "(" + rest
    requires |gap| > 0 && AllWs(gap) && AllWs(gap2)
    requires |name| > 0 && forall i :: 0 <= i < |name| ==> IsWordChar(name[i])
    requires forall j :: 0 <= j < |pre| ==> ClassDeclAt(code, j).None?
    ensures SceneClassName(code) == name
  {
    var k := |pre|;
    var b := k + |ClassKeyword| + |gap|;
    var c := b + |name|;
    DeclSlices(code, pre, gap, name, gap2, rest);
    FirstDeclAt(code, k, b, c, c + |gap2|);
  }

  /** The scene class read off the first matching declaration, with its positions given. */
  lemma FirstDeclAt(code: string, k: nat, b: nat, c: nat, d: nat)
    requires StartsAt(code, k, ClassKeyword)
    requires forall j :: 0 <= j < k ==> ClassDeclAt(code, j).None?
    requires k + |ClassKeyword| < b < c <= d < |code|
    requires SkipWs(code, k + |ClassKeyword|) == b && WordEnd(code, b) == c && SkipWs(code, c) == d
    requires code[d] == '('
    ensures SceneClassName(code) == code[b..c]
  {
    DeclMatchesAt(code, k, b, c, d);
    ScanSkips(code, 0, k);
  }

  /** The runs of a declaration written out in parts end where its parts end. */
  lemma DeclSlices(code: string, pre: string, gap: string, name: string, gap2: string, rest: string)
    requires code == pre + ClassKeyword + gap + name + gap2 + "(" + rest
    requires |gap| > 0 && AllWs(gap) && AllWs(gap2)
    requires |name| > 0 && forall i :: 0 <= i < |name| ==> IsWordChar(name[i])
    ensures var a := |pre| + |ClassKeyword|; var b := a + |gap|; var c := b + |name|; var d := c + |gap2|;
      && d < |code| && StartsAt(code, |pre|, ClassKeyword)
      && SkipWs(code, a) == b && WordEnd(code, b) == c && SkipWs(code, c) == d
      && code[d] == '(' && code[b..c] == name
  {
    var a := |pre| + |ClassKeyword|;
    var b := a + |gap|;
    var c := b + |name|;
    var d := c + |gap2|;
    DeclParts(code, pre, gap, name, gap2, rest);
    DeclRuns(code, a, b, c, d);
  }

  /** Where each part of a declaration written out in parts sits in the text. */
  lemma DeclParts(code: string, pre: string, gap: string, name: string, gap2: string, rest: string)
    requires code == pre + ClassKeyword + gap + name + gap2 + "(" + rest
    requires |gap| > 0 && AllWs(gap) && AllWs(gap2)
    requires |name| > 0 && forall i :: 0 <= i < |name| ==> IsWordChar(name[i])
    ensures var a := |pre| + |ClassKeyword|; var b := a + |gap|; var c := b + |name|; var d := c + |gap2|;
      && d < |code| && StartsAt(code, |pre|, ClassKeyword) && code[d] == '(' && code[b..c] == name
      && (forall i :: a <= i < b ==> IsWs(code[i]))
      && (forall i :: b <= i < c ==> IsWordChar(code[i]))
      && (forall i :: c <= i < d ==> IsWs(code[i]))
  {
    var k := |pre|;
    var a := k + |ClassKeyword|;
    var b := a + |gap|;
    var c := b + |name|;
    var d := c + |gap2|;
    assert code[k..a] == ClassKeyword;
    assert code[b..c] == name;
    assert code[d] == '(';
    assert forall i :: a <= i < b ==> code[i] == gap[i - a];
    assert forall i :: b <= i < c ==> code[i] == name[i - b];
    assert forall i :: c <= i < d ==> code[i] == gap2[i - c];
  }

  /** Runs that end at the next part are exactly what the scanners skip. */
  lemma DeclRuns(code: string, a: nat, b: nat, c: nat, d: nat)
    requires a < b < c <= d < |code|
    requires forall i :: a <= i < b ==> IsWs(code[i])
    requires forall i :: b <= i < c ==> IsWordChar(code[i])
    requires forall i :: c <= i < d ==> IsWs(code[i])
    requires code[d] == '('
    ensures SkipWs(code, a) == b && WordEnd(code, b) == c && SkipWs(code, c) == d
  {
    SkipWsExact(code, c, d);
    SkipWsExact(code, a, b);
    WordEndExact(code, b, c);
  }

  // ---------------------------------------------------------------------------
  // Renderer command and output search
  // ---------------------------------------------------------------------------

  const ScriptFile: string := "scene.py"
  /** The script's base name without `.py`: the renderer's per-scene media folder. */
  const SceneName: string := "scene"
  const ManimTimeoutMs: nat := 60000

  /** Path segments joined with `/`. */
  function PathJoin(parts: seq<string>): string
    decreases |parts|
  {
    if |parts| == 0 then []
    else if |parts| == 1 then parts[0]
    else parts[0] + "/" + PathJoin(parts[1..])
  }

  function ManimCommand(scriptPath: string, className: string): string {
    "python -m manim -ql \"" + scriptPath + "\" " + className
  }

  /**
   * Where the renderer's video may be, in the order they are tried: three
   * qualities under the workspace, then two places under the process's working
   * directory.
   */
  function CandidatePaths(tempDir: string, cwd: string, className: string): (r: seq<string>)
    ensures |r| == 5
  {
    var file := className + ".mp4";
    [ PathJoin([tempDir, "media", "videos", SceneName, "480p15", file]),
      PathJoin([tempDir, "media", "videos", SceneName, "720p30", file]),
      PathJoin([tempDir, "media", "videos", SceneName, "1080p60", file]),
      PathJoin([cwd, "media", "videos", SceneName, "480p15", file]),
      PathJoin([cwd, "apps", "worker", "media", "videos", SceneName, "480p15", file]) ]
  }

  /** The index of the first path at or after `k` that exists. */
  function FirstExistingFrom(paths: seq<string>, existing: set<string>, k: nat): (r: Option<nat>)
    requires k <= |paths|
    ensures r.Some? ==> k <= r.value < |paths| && paths[r.value] in existing
    ensures r.Some? ==> forall j :: k <= j < r.value ==> paths[j] !in existing
    ensures r.None? ==> forall j :: k <= j < |paths| ==> paths[j] !in existing
    decreases |paths| - k
  {
    if k == |paths| then None
    else if paths[k] in existing then Some(k)
    else FirstExistingFrom(paths, existing, k + 1)
  }

  /** The first existing path, if any: the specification of the search loop. */
  function FoundVideo(paths: seq<string>, existing: set<string>): Option<string> {
    match FirstExistingFrom(paths, existing, 0)
    case Some(i) => Some(paths[i])
    case None => None
  }

  /** The search loop over the candidate paths, stopping at the first that exists. */
  method SearchOutput(searchPaths: seq<string>, existing: set<string>) returns (found: Option<string>)
    ensures found == FoundVideo(searchPaths, existing)
    ensures found.Some? ==> found.value in existing
    ensures found.None? ==> forall j :: 0 <= j < |searchPaths| ==> searchPaths[j] !in existing
  {
    var i := 0;
    while i < |searchPaths|
      invariant 0 <= i <= |searchPaths|
      invariant FirstExistingFrom(searchPaths, existing, 0) == FirstExistingFrom(searchPaths, existing, i)
    {
      if searchPaths[i] in existing {
        return Some(searchPaths[i]);
      }
      i := i + 1;
    }
    return None;
  }

  /** A video under the workspace is always preferred to one under the working directory. */
  lemma WorkspaceVideoPreferred(tempDir: string, cwd: string, className: string, existing: set<string>, q: nat)
    requires q < 3 && CandidatePaths(tempDir, cwd, className)[q] in existing
    ensures var paths := CandidatePaths(tempDir, cwd, className);
      FirstExistingFrom(paths, existing, 0).Some? && FirstExistingFrom(paths, existing, 0).value <= q
  {
  }

  // ---------------------------------------------------------------------------
  // Rendering
  // ---------------------------------------------------------------------------

  /** How the renderer subprocess would behave if started. */
  datatype ProcessRun = ProcessRun(spawnFailed: bool, exitCode: int, runMs: nat)

  /** The subprocess reports an error: it could not start, exited non-zero or was killed at the timeout. */
  predicate ExecFailed(run: ProcessRun) {
    run.spawnFailed || run.exitCode != 0 || run.runMs > ManimTimeoutMs
  }

  /** What the file system and the processes do during one render. */
  datatype RenderEnv = RenderEnv(
    scriptWrite: Outcome,     // writing the scene script
    run: ProcessRun,          // the renderer subprocess
    cwd: string,              // the worker process's working directory
    existing: set<string>,    // the paths that exist once the renderer has finished
    copy: Outcome,            // copying the found video to the output path and reading its size
    fallback: Outcome)        // the placeholder encoder

  /** Which video ended up at the output path. */
  datatype Rendering = ManimVideo(source: string) | FallbackVideo

  /** The primary renderer: its result is the path of the video it copied to the output. */
  function RenderWithManim(sceneCode: string, scriptPath: string, tempDir: string, env: RenderEnv): (r: Result<string>)
    ensures r.Ok? ==> !ExecFailed(env.run) && env.copy.Pass? && r.value in env.existing
    ensures r.Ok? ==> r.value in CandidatePaths(tempDir, env.cwd, SceneClassName(sceneCode))
    ensures !ExecFailed(env.run) && env.copy.Pass?
      ==> (r.Ok? <==> exists p :: p in CandidatePaths(tempDir, env.cwd, SceneClassName(sceneCode)) && p in env.existing)
    ensures r.Ok? ==> Some(r.value) == FoundVideo(CandidatePaths(tempDir, env.cwd, SceneClassName(sceneCode)), env.existing)
    ensures !ExecFailed(env.run) && FoundVideo(CandidatePaths(tempDir, env.cwd, SceneClassName(sceneCode)), env.existing).None?
      ==> r == Err("Manim output video not found")
    ensures !ExecFailed(env.run) && env.copy.Fail?
      && FoundVideo(CandidatePaths(tempDir, env.cwd, SceneClassName(sceneCode)), env.existing).Some?
      ==> r == Err(env.copy.error)
  {
    var className := SceneClassName(sceneCode);
    if ExecFailed(env.run) then Err("Command failed: " + ManimCommand(scriptPath, className))
    else
      var paths := CandidatePaths(tempDir, env.cwd, className);
      var found := FoundVideo(paths, env.existing);
      assert found.None? ==> forall p :: p in paths ==> p !in env.existing;
      match found
      case None => Err("Manim output video not found")
      case Some(p) =>
        if env.copy.Fail? then Err(env.copy.error) else Ok(p)
  }

  /** The primary renderer, and the fallback encoder whenever it fails. */
  function RenderManim(sceneCode: string, scriptPath: string, tempDir: string, env: RenderEnv): (r: Result<Rendering>)
    ensures r.Err? <==> RenderWithManim(sceneCode, scriptPath, tempDir, env).Err? && env.fallback.Fail?
    ensures r.Err? ==> r.error == env.fallback.error
    ensures r.Ok? && r.value.FallbackVideo? <==> RenderWithManim(sceneCode, scriptPath, tempDir, env).Err? && env.fallback.Pass?
    ensures r.Ok? && r.value.ManimVideo? ==> r.value.source == RenderWithManim(sceneCode, scriptPath, tempDir, env).value
  {
    match RenderWithManim(sceneCode, scriptPath, tempDir, env)
    case Ok(p) => Ok(ManimVideo(p))
    case Err(_) =>
      match env.fallback
      case Pass => Ok(FallbackVideo)
      case Fail(e) => Err(e)
  }

  /** Writes the scene script into the workspace, then renders it. */
  function CreateSimpleAnimation(tempDir: string, sceneCode: string, env: RenderEnv): (r: Result<Rendering>)
    ensures env.scriptWrite.Fail? ==> r == Err(env.scriptWrite.error)
    ensures env.scriptWrite.Pass? ==> r == RenderManim(sceneCode, PathJoin([tempDir, ScriptFile]), tempDir, env)
  {
    match env.scriptWrite
    case Fail(e) => Err(e)
    case Pass => RenderManim(sceneCode, PathJoin([tempDir, ScriptFile]), tempDir, env)
  }

  /** Once the script is written, only a failure of the fallback encoder makes rendering fail. */
  lemma RenderingFailsOnlyWithFallback(tempDir: string, sceneCode: string, env: RenderEnv)
    requires env.scriptWrite.Pass? && env.fallback.Pass?
    ensures CreateSimpleAnimation(tempDir, sceneCode, env).Ok?
  {
  }

  // ---------------------------------------------------------------------------
  // Publishing
  // ---------------------------------------------------------------------------

  /** Object-store settings read from the environment; `""` stands for an unset variable. */
  datatype StorageConfig = StorageConfig(accessKeyId: string, secretAccessKey: string, bucket: string, region: string)

  const DefaultRegion: string := "us-east-1"
  const KeyPrefix: string := "animations/"
  const VideoExtension: string := ".mp4"

  predicate HasCredentials(c: StorageConfig) {
    c.accessKeyId != [] && c.secretAccessKey != [] && c.bucket != []
  }

  function Region(c: StorageConfig): (r: string)
    ensures r != []
  {
    if c.region != [] then c.region else DefaultRegion
  }

  function S3Key(projectId: string, promptId: string): string {
    KeyPrefix + projectId + "/" + promptId + VideoExtension
  }

  function RemoteUrl(c: StorageConfig, key: string): string {
    "https://" + c.bucket + ".s3." + Region(c) + ".amazonaws.com/" + key
  }

  function LocalUrl(outputPath: string): string {
    "file://" + outputPath
  }

  predicate NoSlash(s: string) {
    forall i :: 0 <= i < |s| ==> s[i] != '/'
  }

  /** The project id ends at the first `/` after the key prefix. */
  lemma KeySlash(p: string, q: string)
    requires NoSlash(p)
    ensures var k := S3Key(p, q);
      |k| == |KeyPrefix| + |p| + 1 + |q| + |VideoExtension|
      && k[|KeyPrefix| + |p|] == '/'
      && (forall i :: |KeyPrefix| <= i < |KeyPrefix| + |p| ==> k[i] == p[i - |KeyPrefix|])
      && k[|KeyPrefix| + |p| + 1..|k| - |VideoExtension|] == q
  {
    var k := S3Key(p, q);
    assert k == KeyPrefix + p + "/" + q + VideoExtension;
  }

  /**
   * Different (project, prompt) pairs are stored under different keys, as long
   * as project ids contain no `/`.
   */
  lemma DistinctKeys(p1: string, q1: string, p2: string, q2: string)
    requires NoSlash(p1) && NoSlash(p2)
    requires S3Key(p1, q1) == S3Key(p2, q2)
    ensures p1 == p2 && q1 == q2
  {
    KeySlash(p1, q1);
    KeySlash(p2, q2);
    var n := |KeyPrefix|;
    var k := S3Key(p1, q1);
    assert |p1| == |p2|;
    assert p1 == p2 by {
      assert forall i :: 0 <= i < |p1| ==> p1[i] == k[n + i] == p2[i];
    }
  }

  /** What the three steps of the upload do. */
  datatype UploadEnv = UploadEnv(read: Outcome, put: Outcome, cleanup: Outcome)

  datatype Storage = Remote | Local

  /** The chosen URL, where the video lives, and whether the workspace was removed. */
  datatype Publication = Publication(videoUrl: string, storage: Storage, workspaceRemoved: bool)

  /**
   * Uploads the rendered video when credentials are configured. Any failure of
   * reading, uploading or removing the workspace falls back to the local URL,
   * including a removal that fails after the upload succeeded.
   */
  function Publish(c: StorageConfig, u: UploadEnv, projectId: string, promptId: string, outputPath: string): (r: Publication)
    ensures r.storage == Remote <==> HasCredentials(c) && u.read.Pass? && u.put.Pass? && u.cleanup.Pass?
    ensures r.storage == Remote ==> r.videoUrl == RemoteUrl(c, S3Key(projectId, promptId))
    ensures r.storage == Local ==> r.videoUrl == LocalUrl(outputPath)
    ensures r.workspaceRemoved <==> r.storage == Remote
  {
    if HasCredentials(c) && u.read.Pass? && u.put.Pass? && u.cleanup.Pass? then
      Publication(RemoteUrl(c, S3Key(projectId, promptId)), Remote, true)
    else
      Publication(LocalUrl(outputPath), Local, false)
  }

  // ---------------------------------------------------------------------------
  // createAnimation
  // ---------------------------------------------------------------------------

  datatype AnimationRow = AnimationRow(id: string, code: string)

  /** What the database, the file system and the object store do during one call. */
  datatype AnimationEnv = AnimationEnv(
    records: Result<seq<AnimationRow>>,  // the prompt's animation rows, newest first
    workspace: Result<string>,           // the fresh temporary directory
    render: RenderEnv,
    config: StorageConfig,
    upload: UploadEnv,
    update: Outcome)                     // storing the URL on the row

  datatype Published = Published(videoUrl: string, storage: Storage, workspaceRemoved: bool, recordId: string, rendering: Rendering)

  const NoAnimationsMessage: string := "No animations found"
  const OutputFile: string := "output.mp4"

  /**
   * Renders the newest animation row of a prompt, publishes the video and
   * stores its URL on that row; any failure is rethrown.
   */
  function CreateAnimation(projectId: string, promptId: string, env: AnimationEnv): (r: Result<Published>)
    ensures env.records == Ok([]) ==> r == Err(NoAnimationsMessage)
    ensures env.records.Err? ==> r == Err(env.records.error)
    ensures r.Ok? ==> env.records.Ok? && env.records.value != [] && env.workspace.Ok? && env.update.Pass?
    ensures r.Ok? ==> r.value.recordId == env.records.value[0].id
    ensures r.Ok? ==> CreateSimpleAnimation(env.workspace.value, env.records.value[0].code, env.render) == Ok(r.value.rendering)
    ensures env.records.Ok? && env.records.value != [] && env.workspace.Err? ==> r == Err(env.workspace.error)
    ensures (&& env.records.Ok? && env.records.value != [] && env.workspace.Ok?
             && CreateSimpleAnimation(env.workspace.value, env.records.value[0].code, env.render).Err?)
      ==> r == Err(CreateSimpleAnimation(env.workspace.value, env.records.value[0].code, env.render).error)
    ensures (&& env.records.Ok? && env.records.value != [] && env.workspace.Ok?
             && CreateSimpleAnimation(env.workspace.value, env.records.value[0].code, env.render).Ok? && env.update.Fail?)
      ==> r == Err(env.update.error)
    ensures r.Ok? ==> (r.value.storage == Remote
      <==> HasCredentials(env.config) && env.upload.read.Pass? && env.upload.put.Pass? && env.upload.cleanup.Pass?)
    ensures r.Ok? && r.value.storage == Remote ==> r.value.videoUrl == RemoteUrl(env.config, S3Key(projectId, promptId))
    ensures r.Ok? && r.value.storage == Local
      ==> r.value.videoUrl == LocalUrl(PathJoin([env.workspace.value, OutputFile])) && !r.value.workspaceRemoved
    ensures r.Ok? && r.value.rendering.ManimVideo? ==> r.value.rendering.source in env.render.existing
    ensures (&& env.records.Ok? && env.records.value != [] && env.workspace.Ok? && env.update.Pass?
             && env.render.scriptWrite.Pass? && env.render.fallback.Pass?) ==> r.Ok?
  {
    match env.records
    case Err(e) => Err(e)
    case Ok(rows) =>
      if rows == [] then Err(NoAnimationsMessage)
      else
        var animation := rows[0];
        match env.workspace
        case Err(e) => Err(e)
        case Ok(tempDir) =>
          var outputPath := PathJoin([tempDir, OutputFile]);
          match CreateSimpleAnimation(tempDir, animation.code, env.render)
          case Err(e) => Err(e)
          case Ok(rendering) =>
            var pub := Publish(env.config, env.upload, projectId, promptId, outputPath);
            match env.update
            case Fail(e) => Err(e)
            case Pass => Ok(Published(pub.videoUrl, pub.storage, pub.workspaceRemoved, animation.id, rendering))
  }
}
