/** The push and wiki (gollum) event formatters of github.js. */
module Formatters {
  import opened Wrappers
  import opened Groups
  import opened Text
  import opened Payloads

  /** The usernames of the commits, in commit order. */
  function Usernames(commits: seq<Commit>): (names: seq<string>)
    ensures |names| == |commits|
    ensures forall i :: 0 <= i < |commits| ==> names[i] == commits[i].username
  {
    seq(|commits|, i requires 0 <= i < |commits| => commits[i].username)
  }

  /** The distinct names of `names`, each at its first appearance. */
  function Distinct(names: seq<string>): seq<string>
  {
    if names == [] then []
    else
      var seen := Distinct(names[..|names| - 1]);
      if names[|names| - 1] in seen then seen else seen + [names[|names| - 1]]
  }

  /** How many times `name` occurs in `names`. */
  function Occurrences(names: seq<string>, name: string): nat
  {
    if names == [] then 0
    else Occurrences(names[..|names| - 1], name) + (if names[|names| - 1] == name then 1 else 0)
  }

  lemma {:induction false} OccurrencesAbsent(names: seq<string>, name: string)
    requires name !in names
    ensures Occurrences(names, name) == 0
  {
    if names != [] {
      assert names[..|names| - 1] <= names;
      OccurrencesAbsent(names[..|names| - 1], name);
    }
  }

  /** A name is among the distinct names exactly when it is among the names. */
  lemma {:induction false} DistinctMember(names: seq<string>, x: string)
    ensures x in Distinct(names) <==> x in names
  {
    if names != [] {
      var init := names[..|names| - 1];
      DistinctMember(init, x);
      assert names == init + [names[|names| - 1]];
    }
  }

  /** Extending the names by one: the distinct names and the counts after it. */
  lemma NamesStep(names: seq<string>, i: nat)
    requires i < |names|
    ensures Distinct(names[..i + 1]) ==
      if names[i] in Distinct(names[..i]) then Distinct(names[..i]) else Distinct(names[..i]) + [names[i]]
    ensures forall x :: Occurrences(names[..i + 1], x) == Occurrences(names[..i], x) + (if x == names[i] then 1 else 0)
  {
    assert names[..i + 1][..i] == names[..i] && names[..i + 1][i] == names[i];
  }

  predicate NoDuplicates(names: seq<string>)
  {
    forall i, j :: 0 <= i < j < |names| ==> names[i] != names[j]
  }

  /** The distinct names are exactly the names, each once. */
  lemma {:induction false} DistinctSpec(names: seq<string>)
    ensures forall x :: x in Distinct(names) <==> x in names
    ensures NoDuplicates(Distinct(names))
    ensures |names| > 0 ==> |Distinct(names)| > 0
  {
    if names != [] {
      var init := names[..|names| - 1];
      DistinctSpec(init);
      assert names == init + [names[|names| - 1]];
    }
  }

  /**
   * The author phrase: with more than one name, all but the last joined by ", " and then " & " and
   * the last; with one name, that name; with none, JavaScript's "undefined".
   */
  function AuthorPhrase(names: seq<string>): (phrase: string)
    ensures |names| == 0 ==> phrase == "undefined"
    ensures |names| >= 1 ==> names[0] <= phrase && EndsWith(phrase, names[|names| - 1])
    ensures |names| >= 2 ==> EndsWith(phrase, " & " + names[|names| - 1])
  {
    if |names| > 1 then
      var init := names[..|names| - 1];
      JoinPrefix(init, ", ");
      assert init[0] == names[0];
      Join(init, ", ") + " & " + names[|names| - 1]
    else if |names| == 1 then names[0]
    else "undefined"
  }

  /** `s` closes with `t`. */
  predicate EndsWith(s: string, t: string)
  {
    |t| <= |s| && s[|s| - |t|..] == t
  }

  /** How a list of names is read out: "a", "a & b", "a, b & c", "a, b, c & d", ... */
  function Spoken(names: seq<string>): string
    requires |names| >= 1
  {
    if |names| == 1 then names[0]
    else if |names| == 2 then names[0] + " & " + names[1]
    else names[0] + ", " + Spoken(names[1..])
  }

  /** The author phrase of a non-empty list of names reads it out with commas and a final ampersand. */
  lemma {:induction false} AuthorPhraseIsSpoken(names: seq<string>)
    requires |names| >= 1
    ensures AuthorPhrase(names) == Spoken(names)
  {
    if |names| > 2 {
      var n := |names|;
      AuthorPhraseIsSpoken(names[1..]);
      assert names[..n - 1][1..] == names[1..][..n - 2];
      assert names[1..][n - 2] == names[n - 1];
      assert Join(names[..n - 1], ", ") == names[0] + ", " + Join(names[1..][..n - 2], ", ");
    }
  }

  /** The group word of a count, or "undefined" when no rule covers it (JavaScript string concatenation). */
  function GroupWord(count: int): string
  {
    match FirstMatch(Table, count)
    case Some(w) => w
    case None => "undefined"
  }

  /** The message for a push of a single commit. */
  function SingleCommitMessage(repoName: string, c: Commit): string
  {
    "[GitHub] A commit was made by " + c.username + " in the " + repoName + " project. ( " + c.message + " | " + c.url + " )"
  }

  /** The message for a push of several commits. */
  function MultiCommitMessage(group: string, authors: string, repoName: string, repoUrl: string): string
  {
    "[GitHub] A " + group + " commits were made by " + authors + " in the " + repoName + " project. ( " + repoUrl + " )"
  }

  /** What `push(data)` says on the channel, or the TypeError it throws on a push without commits. */
  function PushMessage(data: PushEvent): Result<string, Error>
  {
    if |data.commits| == 0 then Err(NoCommits)
    else if |data.commits| == 1 then Ok(SingleCommitMessage(data.repoName, data.commits[0]))
    else Ok(MultiCommitMessage(GroupWord(|data.commits|), AuthorPhrase(Distinct(Usernames(data.commits))),
                               data.repoName, data.repoUrl))
  }

  /**
   * The forEach loop that counts commits per username in the `authors` object, then `Object.keys`:
   * the per-author commit counts and the authors in the order their keys were created.
   */
  method CountAuthors(commits: seq<Commit>) returns (authors: map<string, nat>, keys: seq<string>)
    ensures keys == Distinct(Usernames(commits))
    ensures forall name :: name in authors <==> name in keys
    ensures forall name :: name in authors ==> authors[name] == Occurrences(Usernames(commits), name)
  {
    ghost var names := Usernames(commits);
    authors, keys := map[], [];
    var i := 0;
    while i < |commits|
      invariant 0 <= i <= |commits|
      invariant keys == Distinct(names[..i])
      invariant forall name :: name in authors <==> name in keys
      invariant forall name :: name in authors ==> authors[name] == Occurrences(names[..i], name)
    {
      var name := commits[i].username;
      NamesStep(names, i);
      if name !in authors {
        DistinctMember(names[..i], name);
        OccurrencesAbsent(names[..i], name);
        authors := authors[name := 0];
        keys := keys + [name];
      }
      authors := authors[name := authors[name] + 1];
      i := i + 1;
    }
    assert names[..i] == names;
  }

  /** `push(data)`: the message it passes to `client.say`, or the TypeError it throws. */
  method Push(data: PushEvent) returns (r: Result<string, Error>)
    ensures r == PushMessage(data)
  {
    if |data.commits| == 0 {
      return Err(NoCommits);
    }
    var name := data.repoName;
    var page := data.repoUrl;
    var author := data.commits[0].username;
    var message;
    if |data.commits| == 1 {
      page := data.commits[0].url;
      message := "[GitHub] A commit was made by " + author + " in the " + name + " project. ( " + data.commits[0].message + " | " + page + " )";
    } else {
      var counts, authors := CountAuthors(data.commits);
      if |authors| > 1 {
        var last := authors[|authors| - 1];
        authors := authors[..|authors| - 1];
        author := Join(authors, ", ");
        author := author + " & " + last;
      } else if |authors| == 1 {
        author := authors[0];
      } else {
        author := "undefined";
      }
      var group := FindGroup(|data.commits|);
      var word := if group.Some? then group.value else "undefined";
      message := "[GitHub] A " + word + " commits were made by " + author + " in the " + name + " project. ( " + page + " )";
    }
    return Ok(message);
  }

  /**
   * A push of several commits names every committer exactly once, read out with ", " and a final " & ",
   * under the group word of the commit count, and links the repository.
   */
  lemma PushMessageMulti(data: PushEvent)
    requires |data.commits| >= 2
    ensures exists authors: seq<string> ::
      && |authors| >= 1
      && NoDuplicates(authors)
      && (forall x :: x in authors <==> x in Usernames(data.commits))
      && PushMessage(data) == Ok(MultiCommitMessage(GroupWord(|data.commits|), Spoken(authors), data.repoName, data.repoUrl))
  {
    var authors := Distinct(Usernames(data.commits));
    DistinctSpec(Usernames(data.commits));
    AuthorPhraseIsSpoken(authors);
  }

  /** The group word of a push of several commits is the table's label for the count. */
  lemma PushGroupWord(count: int)
    requires 2 <= count <= TopBound
    ensures GroupWord(count) ==
      if count == 2 then "couple"
      else if count <= 4 then "few"
      else if count <= 7 then "bunch of"
      else if count <= 12 then "lot of"
      else "ton of"
  {
    TableLabels(count);
  }

  /** A single-commit push links the commit and ignores the repository URL. */
  lemma PushSingle(data: PushEvent, otherUrl: string)
    requires |data.commits| == 1
    ensures PushMessage(data) == Ok(SingleCommitMessage(data.repoName, data.commits[0]))
    ensures PushMessage(data.(repoUrl := otherUrl)) == PushMessage(data)
  {
  }

  /** A push of several commits depends on the committers' names only, not on commit messages or URLs. */
  lemma {:induction false} PushMultiIgnoresCommitDetails(data: PushEvent, commits: seq<Commit>)
    requires |data.commits| >= 2
    requires Usernames(commits) == Usernames(data.commits)
    ensures PushMessage(data.(commits := commits)) == PushMessage(data)
  {
    assert |commits| == |data.commits|;
  }

  /** What `gollum(data)` says on the channel: a message for exactly one page, nothing for several. */
  function GollumMessage(data: GollumEvent): (r: Result<Option<string>, Error>)
    ensures r.Err? <==> |data.pages| == 0
    ensures (r.Ok? && r.value.Some?) <==> |data.pages| == 1
  {
    if |data.pages| == 0 then Err(NoPages)
    else if |data.pages| == 1 then
      Ok(Some("[GitHub] User " + data.login + " " + data.pages[0].action + " a page on the " + data.repoName + " wiki. ( " + data.pages[0].url + " )"))
    else Ok(None)
  }

  /** The wiki message links the page and never the repository URL. */
  lemma GollumIgnoresRepoUrl(data: GollumEvent, otherUrl: string)
    ensures GollumMessage(data.(repoUrl := otherUrl)) == GollumMessage(data)
  {
  }

  /** A push of several commits, unfolded. */
  lemma MultiCommitPush(data: PushEvent)
    requires |data.commits| >= 2
    ensures PushMessage(data) == Ok(MultiCommitMessage(GroupWord(|data.commits|),
              AuthorPhrase(Distinct(Usernames(data.commits))), data.repoName, data.repoUrl))
  {
  }

  /** Appending one name adds it to the distinct names unless it is already there. */
  lemma DistinctSnoc(names: seq<string>, x: string)
    ensures Distinct(names + [x]) == if x in names then Distinct(names) else Distinct(names) + [x]
  {
    assert (names + [x])[..|names|] == names;
    DistinctSpec(names);
  }

  /** The committers a, b, a, c, b, three different people, are a, b and c. */
  lemma DistinctFive(a: string, b: string, c: string)
    requires a != b && b != c && a != c
    ensures Distinct([a, b, a, c, b]) == [a, b, c]
  {
    assert [a, b, a, c, b] == [a] + [b] + [a] + [c] + [b];
    assert Distinct([a] + [b]) == [a, b] by {
      DistinctSnoc([], a);
      DistinctSnoc([a], b);
    }
    assert Distinct([a] + [b] + [a]) == [a, b] by { DistinctSnoc([a] + [b], a); }
    assert Distinct([a] + [b] + [a] + [c]) == [a, b, c] by { DistinctSnoc([a] + [b] + [a], c); }
    DistinctSnoc([a] + [b] + [a] + [c], b);
  }

  /**
   * A push of five commits by a, b, a, c and b, three different people, is a "bunch of" commits by
   * "a, b & c", linking the repository.
   */
  lemma ExampleFiveCommits(data: PushEvent, a: string, b: string, c: string)
    requires a != b && b != c && a != c
    requires |data.commits| == 5
    requires Usernames(data.commits) == [a, b, a, c, b]
    ensures PushMessage(data) == Ok(MultiCommitMessage("bunch of", a + ", " + b + " & " + c, data.repoName, data.repoUrl))
  {
    MultiCommitPush(data);
    DistinctFive(a, b, c);
    assert AuthorPhrase([a, b, c]) == a + ", " + b + " & " + c by {
      AuthorPhraseIsSpoken([a, b, c]);
      assert [a, b, c][1..] == [b, c];
    }
    assert GroupWord(5) == "bunch of" by { PushGroupWord(5); }
  }

  /** The push of alice, bob, alice, carol and bob reads "... A bunch of commits were made by alice, bob & carol ...". */
  lemma ExampleAliceBobCarol(data: PushEvent)
    requires |data.commits| == 5
    requires Usernames(data.commits) == ["alice", "bob", "alice", "carol", "bob"]
    ensures PushMessage(data) == Ok(MultiCommitMessage("bunch of", "alice, bob & carol", data.repoName, data.repoUrl))
  {
    assert "alice" + ", " + "bob" + " & " + "carol" == "alice, bob & carol";
    ExampleFiveCommits(data, "alice", "bob", "carol");
  }
}
