/** hostr/cmd/relays/relays.go: the relay list. It comes from the
    comma-separated environment variable RELAY_URLS when that names at least
    one relay, and otherwise from the newline-separated file .nostr_relays in
    the settings directory, which AddRelay appends to and RemoveRelay
    rewrites. */
module Relays {
  import opened Base

  const RelaysFile := ".nostr_relays"

  /** The file's path under the settings directory. */
  function RelaysPath(dir: string): string {
    dir + "/" + RelaysFile
  }

  /** The error os.ReadFile reports for a file that does not exist. */
  function MissingFile(dir: string): string {
    "open " + RelaysPath(dir) + ": no such file or directory"
  }

  /** The non-empty results of `trim` on the entries, in order. */
  function Entries(trim: string -> string, parts: seq<string>): (r: seq<string>)
    ensures |r| <= |parts|
    ensures forall i :: 0 <= i < |r| ==> r[i] != []
  {
    if parts == [] then []
    else
      var t := trim(parts[|parts| - 1]);
      Entries(trim, parts[..|parts| - 1]) + (if |t| > 0 then [t] else [])
  }

  /** The comma-separated entries, trimmed, with the blank ones dropped. */
  function Trimmed(parts: seq<string>): (r: seq<string>) {
    Entries(TrimSpace, parts)
  }

  /** The file's lines longer than one byte (Go's `len` of the line's
      UTF-8 bytes). */
  function LongLines(data: seq<string>): (r: seq<string>)
    ensures |r| <= |data|
    ensures forall i :: 0 <= i < |r| ==> |Utf8(r[i])| > 1
  {
    if data == [] then []
    else
      var line := data[|data| - 1];
      LongLines(data[..|data| - 1]) + (if |Utf8(line)| > 1 then [line] else [])
  }

  /** The lines other than the target. */
  function Kept(lines: seq<string>, target: string): (r: seq<string>)
    ensures |r| <= |lines|
    ensures target !in r
  {
    if lines == [] then []
    else
      var line := lines[|lines| - 1];
      Kept(lines[..|lines| - 1], target) + (if line != target then [line] else [])
  }

  /** The relays the file lists. */
  function FileRelays(content: string): seq<string> {
    LongLines(Split(content, '\n'))
  }

  /** The file's content after RemoveRelay. */
  function Removed(content: string, target: string): string {
    Join(Kept(Split(content, '\n'), target), '\n')
  }

  /** The file's content after AddRelay; a missing file is created. */
  function Added(file: Option<string>, url: string): string {
    (if file.Some? then file.value else "") + url + "\n"
  }

  /** The entries RELAY_URLS names; an unset variable reads as "". */
  function EnvRelays(env: string): seq<string> {
    if env != "" then Trimmed(Split(env, ',')) else []
  }

  /** GetAllRelays, given RELAY_URLS, the settings directory lookup and the
      file (None when it does not exist). */
  function AllRelays(env: string, dir: Result<string>, file: Option<string>): Result<seq<string>> {
    var fromEnv := EnvRelays(env);
    if fromEnv != [] then Ok(fromEnv)
    else if dir.Err? then Err(dir.msg)
    else if file.None? then Err(MissingFile(dir.value))
    else Ok(FileRelays(file.value))
  }

  lemma TrimmedSnoc(parts: seq<string>, i: nat)
    requires i < |parts|
    ensures Trimmed(parts[..i + 1]) ==
      Trimmed(parts[..i]) + (if |TrimSpace(parts[i])| > 0 then [TrimSpace(parts[i])] else [])
  {
    assert parts[..i + 1][..i] == parts[..i];
  }

  /** The line filter counts bytes: a line of one two-byte character is
      kept, a line of one ASCII character is not. */
  lemma LongLinesBytes()
    ensures LongLines(["\U{E9}"]) == ["\U{E9}"]
    ensures LongLines(["a"]) == []
  {
    assert Utf8("\U{E9}") == Utf8Char('\U{E9}') + Utf8([]);
    assert ["\U{E9}"][..0] == [];
    assert ["a"][..0] == [];
  }

  lemma LongLinesSnoc(data: seq<string>, i: nat)
    requires i < |data|
    ensures LongLines(data[..i + 1]) == LongLines(data[..i]) + (if |Utf8(data[i])| > 1 then [data[i]] else [])
  {
    assert data[..i + 1][..i] == data[..i];
  }

  lemma KeptSnoc(lines: seq<string>, target: string, i: nat)
    requires i < |lines|
    ensures Kept(lines[..i + 1], target) == Kept(lines[..i], target) + (if lines[i] != target then [lines[i]] else [])
  {
    assert lines[..i + 1][..i] == lines[..i];
  }

  /** An entry is kept exactly when it is not blank, and then trimmed. */
  lemma {:induction false} EntriesMembers(trim: string -> string, parts: seq<string>, x: string)
    ensures x in Entries(trim, parts) <==>
      x != [] && exists j :: 0 <= j < |parts| && trim(parts[j]) == x
  {
    if parts != [] {
      var init := parts[..|parts| - 1];
      var t := trim(parts[|parts| - 1]);
      var e := if |t| > 0 then [t] else [];
      EntriesMembers(trim, init, x);
      assert Entries(trim, parts) == Entries(trim, init) + e;
      if x in Entries(trim, parts) {
        if x in Entries(trim, init) {
          var j :| 0 <= j < |init| && trim(init[j]) == x;
          assert init[j] == parts[j];
        } else {
          assert x in e;
          assert trim(parts[|parts| - 1]) == x;
        }
      }
      if x != [] && exists j :: 0 <= j < |parts| && trim(parts[j]) == x {
        var j :| 0 <= j < |parts| && trim(parts[j]) == x;
        if j < |init| {
          assert init[j] == parts[j];
          assert x in Entries(trim, init);
        } else {
          assert x in e;
        }
      }
    }
  }

  /** The relays RELAY_URLS names are its non-blank entries, trimmed. */
  lemma TrimmedMembers(parts: seq<string>, x: string)
    ensures x in Trimmed(parts) <==>
      x != [] && exists j :: 0 <= j < |parts| && TrimSpace(parts[j]) == x
  {
    EntriesMembers(TrimSpace, parts, x);
  }

  /** The entries keep their order: the entries of a concatenation are the
      concatenation of the entries of the halves. */
  lemma {:induction false} EntriesAppend(trim: string -> string, a: seq<string>, b: seq<string>)
    ensures Entries(trim, a + b) == Entries(trim, a) + Entries(trim, b)
    decreases |b|
  {
    if b == [] {
      assert a + b == a;
    } else {
      var init := b[..|b| - 1];
      EntriesAppend(trim, a, init);
      assert (a + b)[..|a + b| - 1] == a + init;
    }
  }

  /** A non-empty run of lines is its prefix and its last line, also after
      other lines. */
  lemma SplitLastLine(a: seq<string>, b: seq<string>)
    requires b != []
    ensures b == b[..|b| - 1] + [b[|b| - 1]]
    ensures a + b == (a + b[..|b| - 1]) + [b[|b| - 1]]
  {
  }

  /** The same for the file's lines. */
  lemma {:induction false} LongLinesAppend(a: seq<string>, b: seq<string>)
    ensures LongLines(a + b) == LongLines(a) + LongLines(b)
    decreases |b|
  {
    if b == [] {
      assert a + b == a;
    } else {
      var init, last := b[..|b| - 1], b[|b| - 1];
      SplitLastLine(a, b);
      LongLinesAppend(a, init);
      LongLinesPush(a + init, last);
      LongLinesPush(init, last);
    }
  }

  /** A line is listed exactly when the file holds it and it is longer than
      one byte. */
  lemma {:induction false} LongLinesMembers(data: seq<string>, x: string)
    ensures x in LongLines(data) <==> x in data && |Utf8(x)| > 1
  {
    if data != [] {
      var init := data[..|data| - 1];
      LongLinesMembers(init, x);
      assert data == init + [data[|data| - 1]];
    }
  }

  /** Removing a line twice gives what removing it once gave. */
  lemma {:induction false} KeptTwice(lines: seq<string>, target: string)
    ensures Kept(Kept(lines, target), target) == Kept(lines, target)
  {
    var k := Kept(lines, target);
    if k != [] {
      KeptNoTarget(k, target);
    }
  }

  /** Lines without the target are all kept. */
  lemma {:induction false} KeptNoTarget(lines: seq<string>, target: string)
    requires target !in lines
    ensures Kept(lines, target) == lines
  {
    if lines != [] {
      var init := lines[..|lines| - 1];
      assert target !in init by {
        assert forall k :: 0 <= k < |init| ==> init[k] == lines[k];
      }
      KeptNoTarget(init, target);
      assert lines[|lines| - 1] in lines;
      assert init + [lines[|lines| - 1]] == lines;
    }
  }

  /** Removing lines and keeping the long ones can be done in either
      order. */
  lemma {:induction false} KeptLongLines(lines: seq<string>, target: string)
    ensures LongLines(Kept(lines, target)) == Kept(LongLines(lines), target)
  {
    if lines != [] {
      var init := lines[..|lines| - 1];
      var line := lines[|lines| - 1];
      KeptLongLines(init, target);
      LongLinesAppend(Kept(init, target), if line != target then [line] else []);
      var l := LongLines(init);
      var tail := if |Utf8(line)| > 1 then [line] else [];
      assert LongLines(lines) == l + tail;
      KeptAppend(l, tail, target);
      if line != target {
        assert LongLines([line]) == LongLines([]) + tail;
      }
      if |Utf8(line)| > 1 {
        assert Kept(tail, target) == Kept([], target) + (if line != target then [line] else []);
      }
    }
  }

  lemma {:induction false} KeptAppend(a: seq<string>, b: seq<string>, target: string)
    ensures Kept(a + b, target) == Kept(a, target) + Kept(b, target)
    decreases |b|
  {
    if b == [] {
      assert a + b == a;
    } else {
      var init := b[..|b| - 1];
      var line := b[|b| - 1];
      var e := if line != target then [line] else [];
      KeptAppend(a, init, target);
      assert (a + b)[..|a + b| - 1] == a + init;
      assert Kept(a + b, target) == Kept(a + init, target) + e;
      assert Kept(b, target) == Kept(init, target) + e;
    }
  }

  /** Splitting at a separator splits the two sides independently. */
  lemma {:induction false} SplitAtSep(a: string, b: string, sep: char)
    ensures Split(a + [sep] + b, sep) == Split(a, sep) + Split(b, sep)
    decreases |a|
  {
    var s := a + [sep] + b;
    if a == [] {
      assert s == [sep] + b;
      SplitCons(sep, b, sep);
    } else {
      assert s == [a[0]] + (a[1..] + [sep] + b);
      assert a == [a[0]] + a[1..];
      SplitAtSep(a[1..], b, sep);
      SplitCons(a[0], a[1..] + [sep] + b, sep);
      SplitCons(a[0], a[1..], sep);
      SplitConsAppend(a[0], Split(a[1..], sep), Split(b, sep), sep);
    }
  }

  /** The step of `SplitCons` commutes with appending more parts. */
  lemma SplitConsAppend(c: char, ra: seq<string>, sb: seq<string>, sep: char)
    requires ra != []
    ensures (if c == sep then [""] + (ra + sb) else [[c] + (ra + sb)[0]] + (ra + sb)[1..]) ==
      (if c == sep then [""] + ra else [[c] + ra[0]] + ra[1..]) + sb
  {
    if c != sep {
      assert (ra + sb)[0] == ra[0];
      assert (ra + sb)[1..] == ra[1..] + sb;
    }
  }

  /** A line followed by a newline splits into the line and "". */
  lemma SplitLine(line: string)
    requires '\n' !in line
    ensures Split(line + "\n", '\n') == [line, ""]
  {
    SplitNoSep(line, '\n');
    SplitAtSep(line, "", '\n');
    assert line + "\n" == line + ['\n'] + "";
  }

  /** Text that ends in a newline splits into the lines before it and a
      final "", and what follows it splits on its own. */
  lemma SplitAfterNewline(c: string, t: string)
    ensures Split(c + "\n" + t, '\n') == Split(c, '\n') + Split(t, '\n')
  {
    assert c + "\n" + t == c + ['\n'] + t;
    SplitAtSep(c, t, '\n');
  }

  /** The long lines of some lines, one more line and a final "". */
  lemma LongLinesLastLine(lines: seq<string>, url: string)
    ensures LongLines(lines + [url, ""]) == LongLines(lines + [""]) + LongLines([url])
  {
    assert lines + [url] + [""] == lines + [url, ""];
    LongLinesPush(lines + [url], "");
    LongLinesPush(lines, url);
    LongLinesPush(lines, "");
    LongLinesPush([], url);
    assert [] + [url] == [url];
  }

  /** One more line at the end. */
  lemma LongLinesPush(data: seq<string>, line: string)
    ensures LongLines(data + [line]) == LongLines(data) + (if |Utf8(line)| > 1 then [line] else [])
  {
    assert (data + [line])[..|data|] == data;
  }

  /** The lines of a file that is empty or ends in a newline, followed by
      one more line and its newline: the old lines and the new one. */
  lemma AddedLines(content: string, url: string)
    requires content == "" || HasSuffix(content, "\n")
    requires '\n' !in url
    ensures FileRelays(content + url + "\n") == FileRelays(content) + LongLines([url])
  {
    SplitLine(url);
    if content == "" {
      assert content + url + "\n" == url + "\n";
      LongLinesLastLine([], url);
      assert [] + [url, ""] == [url, ""];
      assert Split(content, '\n') == [] + [""];
    } else {
      var c := content[..|content| - 1];
      assert content == c + "\n";
      var lines := Split(c, '\n');
      SplitAfterNewline(c, "");
      assert c + "\n" + "" == content;
      assert Split("", '\n') == [""];
      assert Split(content, '\n') == lines + [""];
      SplitAfterNewline(c, url + "\n");
      assert content + url + "\n" == c + "\n" + (url + "\n");
      LongLinesLastLine(lines, url);
    }
  }

  /** A line survives removal exactly when it is not the target. */
  lemma {:induction false} KeptMembers(lines: seq<string>, target: string, x: string)
    ensures x in Kept(lines, target) <==> x in lines && x != target
  {
    if lines != [] {
      var init := lines[..|lines| - 1];
      KeptMembers(init, target, x);
      assert lines == init + [lines[|lines| - 1]];
    }
  }

  /** Joining one more piece adds a separator and the piece. */
  lemma {:induction false} JoinSnoc(xs: seq<string>, y: string, sep: char)
    ensures Join(xs + [y], sep) == if xs == [] then y else Join(xs, sep) + [sep] + y
    decreases |xs|
  {
    if |xs| == 1 {
      assert (xs + [y])[1..] == [y];
    } else if |xs| > 1 {
      JoinSnoc(xs[1..], y, sep);
      assert (xs + [y])[1..] == xs[1..] + [y];
    }
  }

  /** The lines RemoveRelay keeps split back out of the content it
      writes. */
  lemma SplitRemoved(content: string, target: string)
    ensures var k := Kept(Split(content, '\n'), target);
      Split(Removed(content, target), '\n') == if k == [] then [""] else k
  {
    var lines := Split(content, '\n');
    var k := Kept(lines, target);
    if k != [] {
      forall i | 0 <= i < |k|
        ensures '\n' !in k[i]
      {
        KeptMembers(lines, target, k[i]);
      }
      SplitJoin(k, '\n');
    }
  }

  /** RemoveRelay is idempotent: a second removal of the same URL writes
      the content the first one wrote. */
  lemma RemovedTwice(content: string, target: string)
    ensures Removed(Removed(content, target), target) == Removed(content, target)
  {
    var k := Kept(Split(content, '\n'), target);
    SplitRemoved(content, target);
    if k == [] {
      assert Kept([""], target) == Kept([], target) + (if "" != target then [""] else []);
    } else {
      KeptTwice(Split(content, '\n'), target);
    }
  }

  /** After RemoveRelay the file lists the relays it listed before other
      than the removed one, in the same order. */
  lemma RemovedList(content: string, target: string)
    ensures FileRelays(Removed(content, target)) == Kept(FileRelays(content), target)
  {
    var lines := Split(content, '\n');
    SplitRemoved(content, target);
    KeptLongLines(lines, target);
    if Kept(lines, target) == [] {
      assert LongLines([""]) == LongLines([]) + [];
    }
  }

  /** RemoveRelay of a non-empty URL leaves a file that AddRelay appends to
      line by line: empty or ending in a newline. */
  lemma RemovedEndsInNewline(content: string, target: string)
    requires target != ""
    requires content == "" || HasSuffix(content, "\n")
    ensures var r := Removed(content, target); r == "" || HasSuffix(r, "\n")
  {
    if content == "" {
      assert Split(content, '\n') == [""];
      assert Kept([""], target) == Kept([], target) + [""];
    } else {
      var c := content[..|content| - 1];
      assert content == c + ['\n'] + "";
      SplitAtSep(c, "", '\n');
      var lines := Split(c, '\n');
      assert Split(content, '\n') == lines + [""];
      KeptAppend(lines, [""], target);
      assert Kept([""], target) == Kept([], target) + [""];
      JoinSnoc(Kept(lines, target), "", '\n');
    }
  }

  /** RELAY_URLS decides the list when one of its entries is not blank;
      otherwise the list is what an unset RELAY_URLS gives. */
  lemma EnvOrFile(env: string, dir: Result<string>, file: Option<string>)
    ensures (exists j :: 0 <= j < |Split(env, ',')| && TrimSpace(Split(env, ',')[j]) != "") ==>
      AllRelays(env, dir, file) == Ok(Trimmed(Split(env, ',')))
    ensures (forall j :: 0 <= j < |Split(env, ',')| ==> TrimSpace(Split(env, ',')[j]) == "") ==>
      AllRelays(env, dir, file) == AllRelays("", dir, file)
  {
    var parts := Split(env, ',');
    if env == "" {
      assert parts == [""];
      assert TrimSpace("") == "";
    }
    if exists j :: 0 <= j < |parts| && TrimSpace(parts[j]) != "" {
      var j :| 0 <= j < |parts| && TrimSpace(parts[j]) != "";
      TrimmedMembers(parts, TrimSpace(parts[j]));
    }
    if Trimmed(parts) != [] {
      TrimmedMembers(parts, Trimmed(parts)[0]);
    }
  }

  /** The settings file .nostr_relays; None while it does not exist. The
      settings directory lookup is a parameter of each operation. */
  class RelayStore {
    var file: Option<string>

    constructor (file: Option<string>)
      ensures this.file == file
    {
      this.file := file;
    }

    /** AddRelay: the URL and a newline are appended, creating the file
        when it is missing. */
    method AddRelay(dir: Result<string>, relayURL: string) returns (err: Option<string>)
      modifies this`file
      ensures dir.Err? ==> err == Some(dir.msg) && file == old(file)
      ensures dir.Ok? ==> err == None && file == Some(Added(old(file), relayURL))
    {
      if dir.Err? {
        return Some(dir.msg);
      }
      var content := if file.Some? then file.value else "";
      file := Some(content + relayURL + "\n");
      return None;
    }

    /** RemoveRelay: every line equal to the target is dropped and the rest
        are written back, joined by newlines. */
    method RemoveRelay(dir: Result<string>, targetURL: string) returns (err: Option<string>)
      modifies this`file
      ensures dir.Err? ==> err == Some(dir.msg) && file == old(file)
      ensures dir.Ok? && old(file).None? ==> err == Some(MissingFile(dir.value)) && file == old(file)
      ensures dir.Ok? && old(file).Some? ==> err == None && file == Some(Removed(old(file).value, targetURL))
    {
      if dir.Err? {
        return Some(dir.msg);
      }
      if file.None? {
        return Some(MissingFile(dir.value));
      }
      var lines := Split(file.value, '\n');
      var newLines: seq<string> := [];
      var i := 0;
      while i < |lines|
        invariant 0 <= i <= |lines|
        invariant newLines == Kept(lines[..i], targetURL)
      {
        KeptSnoc(lines, targetURL, i);
        if lines[i] != targetURL {
          newLines := newLines + [lines[i]];
        }
        i := i + 1;
      }
      assert lines[..i] == lines;
      file := Some(Join(newLines, '\n'));
      return None;
    }

    /** GetAllRelays, given the value of RELAY_URLS ("" when unset). */
    method GetAllRelays(dir: Result<string>, envRelays: string) returns (r: Result<seq<string>>)
      ensures r == AllRelays(envRelays, dir, file)
    {
      if envRelays != "" {
        var cleanedRelays := CleanRelays(Split(envRelays, ','));
        if |cleanedRelays| > 0 {
          return Ok(cleanedRelays);
        }
      }
      if dir.Err? {
        return Err(dir.msg);
      }
      if file.None? {
        return Err(MissingFile(dir.value));
      }
      var lines := ReadLines(Split(file.value, '\n'));
      return Ok(lines);
    }
  }

  /** The environment loop of GetAllRelays: each entry trimmed, the blank
      ones dropped. */
  method CleanRelays(relayList: seq<string>) returns (cleanedRelays: seq<string>)
    ensures cleanedRelays == Trimmed(relayList)
  {
    cleanedRelays := [];
    var i := 0;
    while i < |relayList|
      invariant 0 <= i <= |relayList|
      invariant cleanedRelays == Trimmed(relayList[..i])
    {
      TrimmedSnoc(relayList, i);
      var trimmed := TrimSpace(relayList[i]);
      if |trimmed| > 0 {
        cleanedRelays := cleanedRelays + [trimmed];
      }
      i := i + 1;
    }
    assert relayList[..i] == relayList;
  }

  /** The file loop of GetAllRelays: the lines longer than one
      byte. */
  method ReadLines(data: seq<string>) returns (lines: seq<string>)
    ensures lines == LongLines(data)
  {
    lines := [];
    var j := 0;
    while j < |data|
      invariant 0 <= j <= |data|
      invariant lines == LongLines(data[..j])
    {
      LongLinesSnoc(data, j);
      if |Utf8(data[j])| > 1 {
        lines := lines + [data[j]];
      }
      j := j + 1;
    }
    assert data[..j] == data;
  }
}
