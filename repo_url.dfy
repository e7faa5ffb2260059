/** The repository-URL helpers of the transfer script: the prefix check that
    accepts a remote, and the derivation of the local directory name from the
    source URL.  Both are total string functions; the script's `exit(1)` on a
    name it cannot extract is the `None` result. */
module RepoUrl {

  datatype Option<T> = None | Some(value: T)

  /** The three prefixes a remote may start with. */
  const HttpPrefix: string := "http://"
  const HttpsPrefix: string := "https://"
  const SshPrefix: string := "git@"

  /** The suffix of a bare clone's directory, and the text the name loses. */
  const GitSuffix: string := ".git"

  // ---------------------------------------------------------------------------
  // Validation
  // ---------------------------------------------------------------------------

  /** A URL is accepted exactly when it starts with one of the three prefixes. */
  predicate IsValidRepoUrl(url: string)
  {
    HttpPrefix <= url || HttpsPrefix <= url || SshPrefix <= url
  }

  /** A prefix `p + ":"` of `scheme + "://" + rest` pins the scheme down to
      `p` when neither holds a colon. */
  lemma SchemeBeforeColon(scheme: string, rest: string, p: string)
    requires ':' !in scheme && ':' !in p
    ensures p + ":" <= scheme + "://" + rest <==> scheme == p
  {
    var url := scheme + "://" + rest;
    if p + ":" <= url {
      assert url[|scheme|] == ':' && (p + ":")[|p|] == ':';
      assert forall t :: 0 <= t < |scheme| ==> url[t] == scheme[t];
      assert forall t :: 0 <= t < |p| ==> (p + ":")[t] == p[t];
      assert |scheme| == |p|;
      assert scheme == url[..|p|] == p;
    } else {
      assert url[..|scheme| + 1] == scheme + ":";
    }
  }

  /** For a URL of the shape `scheme://rest`, the scheme alone decides: only
      `http` and `https` pass (or a scheme that itself starts with `git@`);
      `ssh`, `ftp`, `git` and every other scheme are rejected. */
  lemma SchemeDecidesValidity(scheme: string, rest: string)
    requires ':' !in scheme
    ensures IsValidRepoUrl(scheme + "://" + rest)
            <==> scheme == "http" || scheme == "https" || SshPrefix <= scheme
  {
    var url := scheme + "://" + rest;
    SchemeBeforeColon(scheme, rest, "http");
    SchemeBeforeColon(scheme, rest, "https");
    assert HttpPrefix <= url <==> "http:" <= url by {
      assert HttpPrefix == "http:" + "//";
      if "http:" <= url {
        assert url[..7] == scheme + "://";
      }
    }
    assert HttpsPrefix <= url <==> "https:" <= url by {
      assert HttpsPrefix == "https:" + "//";
      if "https:" <= url {
        assert url[..8] == scheme + "://";
      }
    }
    assert SshPrefix <= url <==> SshPrefix <= scheme by {
      assert url[|scheme|] == ':';
      assert forall t :: 0 <= t < |scheme| ==> url[t] == scheme[t];
    }
  }

  /** The empty string and an `ssh://` or `ftp://` remote are rejected. */
  lemma OtherSchemesRejected(rest: string)
    ensures !IsValidRepoUrl("")
    ensures !IsValidRepoUrl("ssh://" + rest)
    ensures !IsValidRepoUrl("ftp://" + rest)
    ensures IsValidRepoUrl("git@" + rest)
  {
    SchemeDecidesValidity("ssh", rest);
    SchemeDecidesValidity("ftp", rest);
    assert SshPrefix == ("git@" + rest)[..4];
  }

  // ---------------------------------------------------------------------------
  // The pattern `/([^/]+?)(\.git)?$` and the reference meaning of a search
  // ---------------------------------------------------------------------------

  /** The position of the last `/` of `s`, if it has one. */
  function LastSlash(s: string): (r: Option<nat>)
    ensures r.Some? ==> r.value < |s| && s[r.value] == '/' && '/' !in s[r.value + 1..]
    ensures r.None? <==> '/' !in s
  {
    if |s| == 0 then None
    else if s[|s| - 1] == '/' then Some(|s| - 1)
    else
      var r := LastSlash(s[..|s| - 1]);
      assert s == s[..|s| - 1] + [s[|s| - 1]];
      if r.Some? then
        assert s[r.value + 1..] == s[..|s| - 1][r.value + 1..] + [s[|s| - 1]];
        r
      else r
  }

  /** The pattern matches starting at position `i` with a first group of `k`
      characters: a `/`, then `k >= 1` characters none of which is a `/`,
      then either the end of the text or exactly `.git` and the end. */
  ghost predicate MatchAt(url: string, i: int, k: int)
  {
    && 0 <= i && 1 <= k && i + 1 + k <= |url|
    && url[i] == '/'
    && '/' !in url[i + 1..i + 1 + k]
    && (i + 1 + k == |url| || (i + 1 + k + 4 == |url| && GitAt(url, i + 1 + k)))
  }

  /** The first group the search returns: `None` when the pattern matches
      nowhere.  A match can only start at the last `/`; the lazy group leaves
      a trailing `.git` to the optional group only when at least one character
      is left in front of it. */
  function MatchedGroup(url: string): Option<string>
  {
    match LastSlash(url)
    case None => None
    case Some(j) =>
      var segment := url[j + 1..];
      if |segment| == 0 then None
      else if |segment| > 4 && GitAt(segment, |segment| - 4)
      then Some(segment[..|segment| - 4])
      else Some(segment)
  }

  /** Every match starts at the last `/`. */
  lemma MatchStartsAtLastSlash(url: string, i: int, k: int)
    requires MatchAt(url, i, k)
    ensures LastSlash(url) == Some(i)
  {
    var tail := url[i + 1 + k..];
    assert url[i + 1..] == url[i + 1..i + 1 + k] + tail;
    assert '/' !in tail by {
      if tail != [] {
        assert tail == [url[i + 1 + k], url[i + 2 + k], url[i + 3 + k], url[i + 4 + k]];
      }
    }
    assert url[i] == '/';
  }

  /** The search fails exactly when the pattern matches at no position. */
  lemma NoGroupIffNoMatch(url: string)
    ensures MatchedGroup(url).None? <==> forall i, k :: !MatchAt(url, i, k)
  {
    if MatchedGroup(url).None? {
      forall i, k ensures !MatchAt(url, i, k) {
        if MatchAt(url, i, k) {
          MatchStartsAtLastSlash(url, i, k);
        }
      }
    } else {
      var j := LastSlash(url).value;
      assert MatchAt(url, j, |url| - j - 1);
    }
  }

  /** When the search succeeds, the group is the one of the leftmost match,
      and among the matches there the shortest group, as a lazy `+?` gives. */
  lemma GroupIsLeftmostShortest(url: string)
    requires MatchedGroup(url).Some?
    ensures exists i, k ::
              && MatchAt(url, i, k)
              && MatchedGroup(url).value == url[i + 1..i + 1 + k]
              && forall i', k' :: MatchAt(url, i', k') ==> i < i' || (i == i' && k <= k')
  {
    var j := LastSlash(url).value;
    var n := |url| - j - 1;
    var k := if n > 4 && GitAt(url, |url| - 4) then n - 4 else n;
    assert MatchAt(url, j, k) by {
      assert url[j + 1..j + 1 + k] == url[j + 1..][..k];
    }
    assert MatchedGroup(url).value == url[j + 1..j + 1 + k];
    forall i', k' | MatchAt(url, i', k') ensures j < i' || (j == i' && k <= k') {
      MatchStartsAtLastSlash(url, i', k');
    }
  }

  // ---------------------------------------------------------------------------
  // str.replace(".git", "")
  // ---------------------------------------------------------------------------

  /** `.git` occurs in `s` at position `i`. */
  predicate GitAt(s: string, i: int)
  {
    0 <= i && i + 4 <= |s| && s[i] == '.' && s[i + 1] == 'g' && s[i + 2] == 'i' && s[i + 3] == 't'
  }

  /** `.git` occurs nowhere in `s`. */
  ghost predicate NoGitIn(s: string)
  {
    forall i :: !GitAt(s, i)
  }

  /** Deletes the occurrences of `.git` that a left-to-right scan finds, each
      one resuming the scan after the occurrence it deleted. */
  function RemoveGit(s: string): string
    decreases |s|
  {
    if |s| == 0 then s
    else if GitAt(s, 0) then RemoveGit(s[4..])
    else [s[0]] + RemoveGit(s[1..])
  }

  /** The deletion only removes characters: the result is no longer than the
      text, and every character of it comes from the text. */
  lemma {:induction false} RemoveGitOnlyDeletes(s: string)
    ensures |RemoveGit(s)| <= |s|
    ensures forall c :: c in RemoveGit(s) ==> c in s
    decreases |s|
  {
    if |s| > 0 {
      if GitAt(s, 0) {
        RemoveGitOnlyDeletes(s[4..]);
        assert forall c :: c in s[4..] ==> c in s;
      } else {
        RemoveGitOnlyDeletes(s[1..]);
        assert forall c :: c in s[1..] ==> c in s;
      }
    }
  }

  /** A text without `.git` is left as it is. */
  lemma {:induction false} RemoveGitKeepsCleanText(s: string)
    requires NoGitIn(s)
    ensures RemoveGit(s) == s
    decreases |s|
  {
    if |s| > 0 {
      assert !GitAt(s, 0);
      assert NoGitIn(s[1..]) by {
        forall i ensures !GitAt(s[1..], i) {
          assert !GitAt(s, i + 1);
        }
      }
      RemoveGitKeepsCleanText(s[1..]);
      assert s == [s[0]] + s[1..];
    }
  }

  /** The first occurrence of `.git` is deleted and the scan resumes after it:
      when `.git` starts nowhere before the end of `a`, the one after `a` is
      the first. */
  lemma {:induction false} RemoveGitCutsFirstOccurrence(a: string, b: string)
    requires forall i :: 0 <= i < |a| ==> !GitAt(a + GitSuffix + b, i)
    ensures RemoveGit(a + GitSuffix + b) == a + RemoveGit(b)
    decreases |a|
  {
    var s := a + GitSuffix + b;
    if |a| == 0 {
      assert s == GitSuffix + b;
      assert GitAt(s, 0);
      assert s[4..] == b;
    } else {
      assert !GitAt(s, 0);
      assert s[1..] == a[1..] + GitSuffix + b;
      forall i | 0 <= i < |a[1..]| ensures !GitAt(a[1..] + GitSuffix + b, i) {
        assert !GitAt(s, i + 1);
      }
      RemoveGitCutsFirstOccurrence(a[1..], b);
      assert [a[0]] + a[1..] == a;
    }
  }

  /** The deletion is a single pass: deleting one `.git` can bring two halves
      of another together, and that one stays. */
  lemma RemoveGitSinglePass(s: string)
    requires s == ".gi.gitt"
    ensures RemoveGit(s) == GitSuffix
    ensures RemoveGit(RemoveGit(s)) == ""
  {
    var a, b := s[..3], s[7..];
    assert s == a + GitSuffix + b;
    RemoveGitCutsFirstOccurrence(a, b);
    assert b == "t" && RemoveGit(b) == b;
    assert a + b == GitSuffix + [];
    RemoveGitCutsFirstOccurrence([], []);
  }

  /** `replace` does not stop at a suffix: the `.git` inside `foo.github.io`
      goes too. */
  lemma RemoveGitInnerOccurrence(s: string)
    requires s == "foo.github.io"
    ensures RemoveGit(s) == "foohub.io"
  {
    var a, b := s[..3], s[7..];
    assert s == a + GitSuffix + b;
    RemoveGitCutsFirstOccurrence(a, b);
    assert b == "hub.io" && NoGitIn(b);
    RemoveGitKeepsCleanText(b);
  }

  // ---------------------------------------------------------------------------
  // extract_repo_name and the clone's directory name
  // ---------------------------------------------------------------------------

  /** The local repository name derived from a URL, or `None` where the
      script logs an error and exits. */
  function ExtractRepoName(url: string): (r: Option<string>)
    ensures r.Some? ==> '/' !in r.value
    ensures r.Some? ==> LastSlash(url).Some? && |r.value| <= |url| - LastSlash(url).value - 1
  {
    match MatchedGroup(url)
    case None => None
    case Some(group) =>
      RemoveGitOnlyDeletes(group);
      Some(RemoveGit(group))
  }

  /** The directory the script changes into after cloning: the name plus `.git`. */
  function BareRepoName(name: string): (r: string)
    ensures |r| == |name| + 4 && r[..|name|] == name && GitAt(r, |name|)
  {
    name + GitSuffix
  }

  /** Extraction fails exactly for a URL without a `/` and for one whose last
      character is a `/`. */
  lemma ExtractFailsIff(url: string)
    ensures ExtractRepoName(url).None? <==> '/' !in url || (|url| > 0 && url[|url| - 1] == '/')
  {
  }

  /** The segment after the last `/` of `prefix + "/" + segment`. */
  lemma LastSegment(prefix: string, segment: string)
    requires '/' !in segment
    ensures LastSlash(prefix + "/" + segment) == Some(|prefix|)
  {
    var url := prefix + "/" + segment;
    assert url[|prefix|] == '/';
    assert url[|prefix| + 1..] == segment;
  }

  /** The name taken from `prefix/segment`: the regex keeps a trailing `.git`
      out of the group only when the segment is longer than `.git` itself;
      `replace` then deletes every `.git` left in the group. */
  lemma ExtractFromLastSegment(prefix: string, segment: string)
    requires |segment| > 0 && '/' !in segment
    ensures ExtractRepoName(prefix + "/" + segment)
            == Some(RemoveGit(if |segment| > 4 && GitAt(segment, |segment| - 4)
                              then segment[..|segment| - 4] else segment))
  {
    LastSegment(prefix, segment);
    assert (prefix + "/" + segment)[|prefix| + 1..] == segment;
  }

  /** `prefix/name.git` gives `name` when `name` is not empty and holds
      neither `/` nor `.git`. */
  lemma ExtractStripsTrailingGit(prefix: string, name: string)
    requires |name| > 0 && '/' !in name && NoGitIn(name)
    ensures ExtractRepoName(prefix + "/" + name + GitSuffix) == Some(name)
  {
    RemoveGitKeepsCleanText(name);
    var segment := name + GitSuffix;
    assert '/' !in segment;
    ExtractFromLastSegment(prefix, segment);
    assert prefix + "/" + name + GitSuffix == prefix + "/" + segment;
    assert GitAt(segment, |segment| - 4);
    assert segment[..|segment| - 4] == name;
  }

  /** `prefix/name` gives `name` under the same conditions. */
  lemma ExtractKeepsPlainName(prefix: string, name: string)
    requires |name| > 0 && '/' !in name && NoGitIn(name)
    ensures ExtractRepoName(prefix + "/" + name) == Some(name)
  {
    RemoveGitKeepsCleanText(name);
    ExtractFromLastSegment(prefix, name);
    assert !GitAt(name, |name| - 4);
  }

  /** A last segment of exactly `.git` is all group (the lazy group needs one
      character), and `replace` then deletes it: the name is empty. */
  lemma DotGitSegmentGivesEmptyName(prefix: string)
    ensures ExtractRepoName(prefix + "/" + GitSuffix) == Some("")
  {
    ExtractFromLastSegment(prefix, GitSuffix);
    assert GitSuffix == [] + GitSuffix + [];
    RemoveGitCutsFirstOccurrence([], []);
  }

  /** Every `.git` goes, not only a trailing one: `foo.github.io` becomes
      `foohub.io`. */
  lemma InnerGitAlsoRemoved(prefix: string, segment: string)
    requires segment == "foo.github.io"
    ensures ExtractRepoName(prefix + "/" + segment) == Some("foohub.io")
  {
    ExtractFromLastSegment(prefix, segment);
    assert !GitAt(segment, 9);
    RemoveGitInnerOccurrence(segment);
  }

  /** The regex strips one trailing `.git`, and `replace` the one before it:
      `a.git.git` becomes `a`. */
  lemma RepeatedSuffixAllRemoved(prefix: string, segment: string)
    requires segment == "a.git.git"
    ensures ExtractRepoName(prefix + "/" + segment) == Some("a")
  {
    ExtractFromLastSegment(prefix, segment);
    assert GitAt(segment, 5);
    var a := segment[..1];
    assert segment[..5] == a + GitSuffix + [];
    RemoveGitCutsFirstOccurrence(a, []);
    assert RemoveGit([]) == [];
    assert RemoveGit(segment[..5]) == a;
    assert a == "a";
  }

  /** The worked example: `https://example.com/foo/bar.git` is named `bar`
      and cloned into `bar.git`. */
  lemma ExampleUrlName(url: string)
    requires url == "https://example.com/foo/bar.git"
    ensures ExtractRepoName(url) == Some("bar")
    ensures BareRepoName(ExtractRepoName(url).value) == "bar.git"
  {
    var prefix, name := url[..23], url[24..27];
    assert name == "bar" && NoGitIn(name);
    assert url == prefix + "/" + name + GitSuffix;
    ExtractStripsTrailingGit(prefix, name);
  }

  /** A URL naming only a host still yields a name: the host itself. */
  lemma HostOnlyUrlNamesTheHost(url: string)
    requires url == "https://github.com"
    ensures ExtractRepoName(url) == Some("github.com")
  {
    var prefix, name := url[..7], url[8..];
    assert name == "github.com" && NoGitIn(name);
    assert url == prefix + "/" + name;
    ExtractKeepsPlainName(prefix, name);
  }

  /** The same URL passes validation. */
  lemma ExampleUrlAccepted()
    ensures IsValidRepoUrl("https://example.com/foo/bar.git")
  {
    assert HttpsPrefix == "https://example.com/foo/bar.git"[..8];
  }
}
