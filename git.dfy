/**
 * The pure helpers of `git_service.py` that decide what of a GitHub
 * repository is ingested: reading the owner and the repository name off a
 * URL, and the two skip lists for file suffixes and directory names.
 */
module Git {
  import opened Wrappers
  import opened Text

  /** Directory names whose subtree is never walked. */
  const SKIP_DIRECTORIES: set<string> := {
    "node_modules", ".git", "__pycache__", ".venv", "venv", "dist",
    "build", ".next", "vendor", ".idea", ".vscode"
  }

  /** File-name endings (images, configuration, lock and secret files) that are never ingested. */
  const SKIP_FILES: set<string> := {
    ".png", ".jpg", ".jpeg", ".gif", ".bmp", ".tiff", ".ico", ".webp",
    ".yaml", ".yml", ".lock", ".env", ".gitignore"
  }

  /** The error `parse_github_url` raises as a `ValueError`. */
  const INVALID_URL := "Invalid GitHub URL"

  /**
   * `parse_github_url(repo_url)`: the last two `/`-separated segments of the
   * URL once its trailing slashes are stripped. It fails exactly when the
   * stripped URL has no `/` at all, that is when splitting it gives fewer
   * than two segments; otherwise the owner and the name are slash-free and
   * are the whole stripped URL's two segments, or its last two after a `/`.
   */
  function ParseGithubUrl(url: string): (r: Result<(string, string), string>)
    ensures var stripped := TrimEnd(url, IsSlash);
      && (r.Failure? <==> '/' !in stripped)
      && (r.Failure? ==> r.error == INVALID_URL)
      && (r.Success? ==> var (owner, repo) := r.value;
           && '/' !in owner && '/' !in repo
           && (stripped == owner + "/" + repo || EndsWith(stripped, "/" + owner + "/" + repo)))
  {
    var segments := Split(TrimEnd(url, IsSlash), '/');
    var n := |segments|;
    if n < 2 then Failure(INVALID_URL)
    else
      JoinEndsWithLastTwo(segments, '/');
      Success((segments[n - 2], segments[n - 1]))
  }

  /** A slash appended to the URL is stripped again, so it never changes the result. */
  lemma ParseIgnoresTrailingSlash(url: string)
    ensures ParseGithubUrl(url + "/") == ParseGithubUrl(url)
  {
    var s := url + "/";
    assert s[..|s| - 1] == url;
    assert TrimEnd(s, IsSlash) == TrimEnd(url, IsSlash);
  }

  /**
   * The owner and the name come back from any URL that ends in them: a URL
   * `p/owner/repo` whose last two segments are slash-free, with a non-empty
   * name, parses to exactly `(owner, repo)`, whatever `p` is.
   */
  lemma ParseOfOwnerAndRepo(p: string, owner: string, repo: string)
    requires '/' !in owner && '/' !in repo && repo != ""
    ensures ParseGithubUrl(p + "/" + owner + "/" + repo) == Success((owner, repo))
  {
    var url := p + "/" + owner + "/" + repo;
    assert url[|url| - 1] == repo[|repo| - 1];
    assert repo[|repo| - 1] in repo;
    assert TrimEnd(url, IsSlash) == url;
    var front := p + "/" + owner;
    assert url == front + ['/'] + repo;
    SplitAppend(front, repo, '/');
    assert front == p + ['/'] + owner;
    SplitAppend(p, owner, '/');
  }

  /** A bare `owner/repo` parses to exactly that owner and name. */
  lemma ParseOwnerSlashRepo(owner: string, repo: string)
    requires '/' !in owner && '/' !in repo && repo != ""
    ensures ParseGithubUrl(owner + "/" + repo) == Success((owner, repo))
  {
    var url := owner + "/" + repo;
    assert url[|url| - 1] == repo[|repo| - 1];
    assert repo[|repo| - 1] in repo;
    assert TrimEnd(url, IsSlash) == url;
    assert url == owner + ['/'] + repo;
    SplitAppend(owner, repo, '/');
    SplitWithoutSep(owner, '/');
  }

  /** The web address of a repository gives its owner and name, with or without a trailing slash. */
  lemma ParseRepositoryAddress(url: string)
    requires url == "https://github.com/owner/repo"
    ensures ParseGithubUrl(url) == Success(("owner", "repo"))
    ensures ParseGithubUrl(url + "/") == Success(("owner", "repo"))
  {
    var p, owner, repo := "https://github.com", "owner", "repo";
    assert url == p + "/" + owner + "/" + repo;
    ParseOfOwnerAndRepo(p, owner, repo);
    ParseIgnoresTrailingSlash(url);
  }

  /** A bare name, however many slashes follow it, is not a repository URL. */
  lemma ParseBareName(name: string)
    requires '/' !in name
    ensures ParseGithubUrl(name).Failure?
    ensures ParseGithubUrl(name + "/").Failure?
  {
    assert StartsWith(name, TrimEnd(name, IsSlash));
    ParseIgnoresTrailingSlash(name);
  }

  /**
   * `should_ingest_file(filename)`: false exactly when the name ends with one
   * of the skipped endings, that is when some tail of the name is one of them.
   */
  predicate ShouldIngestFile(filename: string): (b: bool)
    ensures b <==> forall k | 0 <= k <= |filename| :: filename[k..] !in SKIP_FILES
  {
    EndingIsTail(filename);
    !exists suffix | suffix in SKIP_FILES :: EndsWith(filename, suffix)
  }

  /** A name ends with a skipped ending exactly when one of its tails is a skipped ending. */
  lemma EndingIsTail(filename: string)
    ensures (exists suffix | suffix in SKIP_FILES :: EndsWith(filename, suffix))
        <==> exists k | 0 <= k <= |filename| :: filename[k..] in SKIP_FILES
  {
    if exists suffix | suffix in SKIP_FILES :: EndsWith(filename, suffix) {
      var suffix :| suffix in SKIP_FILES && EndsWith(filename, suffix);
      assert filename[|filename| - |suffix|..] in SKIP_FILES;
    }
    if exists k | 0 <= k <= |filename| :: filename[k..] in SKIP_FILES {
      var k :| 0 <= k <= |filename| && filename[k..] in SKIP_FILES;
      assert EndsWith(filename, filename[k..]);
    }
  }

  /** Every skipped ending starts with a dot, so a name without a dot is always ingested. */
  lemma IngestNameWithoutDot(filename: string)
    requires '.' !in filename
    ensures ShouldIngestFile(filename)
  {
    forall suffix | suffix in SKIP_FILES
      ensures !EndsWith(filename, suffix)
    {
      assert suffix[0] == '.';
    }
  }

  /** The characters that end a skipped ending. */
  const SKIP_LAST_CHARS := "gfpolkve"

  /** A name whose last character ends none of the skipped endings is ingested. */
  lemma IngestByLastChar(filename: string)
    requires filename != [] && filename[|filename| - 1] !in SKIP_LAST_CHARS
    ensures ShouldIngestFile(filename)
  {
    forall suffix | suffix in SKIP_FILES
      ensures !EndsWith(filename, suffix)
    {
      assert suffix[|suffix| - 1] in SKIP_LAST_CHARS;
    }
  }

  /**
   * The test looks at the end of the name only: whatever comes before a
   * skipped name is skipped too, and an ingested name stays ingested when
   * only its front is cut away.
   */
  lemma SkipIsBySuffix(front: string, filename: string)
    ensures ShouldIngestFile(front + filename) ==> ShouldIngestFile(filename)
  {
    if !ShouldIngestFile(filename) {
      var suffix :| suffix in SKIP_FILES && EndsWith(filename, suffix);
      EndsWithPrepend(filename, front, suffix);
    }
  }

  /** An image is skipped by its ending. */
  lemma SkippedFileExample(name: string)
    requires name == "logo.png"
    ensures !ShouldIngestFile(name)
  {
    assert name == "logo" + ".png";
    EndsWithAppend("logo", ".png");
  }

  /** Source files are ingested, and the test is case-sensitive. */
  lemma IngestedFileExamples(source: string, upper: string)
    requires source == "main.py" && upper == "logo.PNG"
    ensures ShouldIngestFile(source) && ShouldIngestFile(upper)
  {
    IngestByLastChar(source);
    IngestByLastChar(upper);
  }

  /**
   * `should_skip_directory(dir_name)`: exact membership, not a prefix or
   * substring test, so only a single non-empty path segment is ever skipped.
   */
  predicate ShouldSkipDirectory(dirName: string): (b: bool)
    ensures b ==> dirName != "" && '/' !in dirName && '\\' !in dirName
  {
    dirName in SKIP_DIRECTORIES
  }

  /** Only the exact spelling is skipped: a name differing from a skipped one in its first letter is walked. */
  lemma CapitalisedDirectoryWalked(dirName: string, c: char)
    requires ShouldSkipDirectory(dirName) && 'A' <= c <= 'Z'
    ensures !ShouldSkipDirectory([c] + dirName[1..])
  {
    var d := [c] + dirName[1..];
    assert d[0] == c;
  }

  /** Only the listed names are skipped: names that merely contain or extend one are walked. */
  lemma SkipDirectoryExamples()
    ensures ShouldSkipDirectory("node_modules") && ShouldSkipDirectory(".git") && ShouldSkipDirectory("venv")
    ensures !ShouldSkipDirectory("node_modules_old") && !ShouldSkipDirectory("my_venv")
    ensures !ShouldSkipDirectory("src/build") && !ShouldSkipDirectory("Build")
  {
  }
}
