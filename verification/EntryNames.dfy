/** The entry names of an archive as a grammar: what a name that is accepted on its own looks like, written out. */
module EntryNames {
  import opened PathTrie

  /** The bytes of a name besides the slashes between its parts. */
  predicate NameByte(c: char)
  {
    || 'A' <= c <= 'Z' || 'a' <= c <= 'z' || '0' <= c <= '9'
    || c in " !#$%&'()+,-.;=@[]^_`{}~"
  }

  /** A part is not empty, holds name bytes only, ends in neither a dot nor a space, and so is no "." or "..". */
  predicate NamePart(part: string)
  {
    && |part| > 0 && (forall i | 0 <= i < |part| :: NameByte(part[i]))
    && part[|part| - 1] !in ". "
  }

  /** The parts with a slash between any two of them. */
  function Join(parts: seq<string>): string
    requires |parts| > 0
  {
    if |parts| == 1 then parts[0] else Join(parts[..|parts| - 1]) + "/" + parts[|parts| - 1]
  }

  /** A directory is written with one slash at its end. */
  function Written(name: Name): string
    requires |name.parts| > 0
  {
    if name.directory then Join(name.parts) + "/" else Join(name.parts)
  }

  predicate InGrammar(name: Name, limits: Limits)
  {
    && 1 <= |name.parts| <= limits.maxPathComponents
    && (forall i | 0 <= i < |name.parts| :: NamePart(name.parts[i]))
    && |Written(name)| <= limits.maxPathBytes
  }

  lemma SafeBytesListed(c: char)
    ensures SafeByte(c) <==> NameByte(c) || c == '/'
  {
  }

  lemma SafePartMeans(part: string)
    requires forall i | 0 <= i < |part| :: SafeByte(part[i]) && part[i] != '/'
    ensures SafePart(part) <==> NamePart(part)
  {
    hide SafeByte, NameByte;
    forall i | 0 <= i < |part| ensures NameByte(part[i]) { SafeBytesListed(part[i]); }
  }

  // ----- joining and splitting -----

  predicate SlashFree(s: string)
  {
    forall i | 0 <= i < |s| :: s[i] != '/'
  }

  lemma {:induction false} SplitAppend(s: string, t: string)
    requires SlashFree(t)
    ensures Split(s + t) == Split(s)[|Split(s)| - 1 := Split(s)[|Split(s)| - 1] + t]
  {
    var last := Split(s)[|Split(s)| - 1];
    if |t| == 0 {
      assert s + t == s && last + t == last;
    } else {
      var n := |t| - 1;
      SplitAppend(s, t[..n]);
      assert (s + t)[..|s + t| - 1] == s + t[..n] && (last + t[..n]) + [t[n]] == last + t;
    }
  }

  /** Splitting undoes joining. */
  lemma {:induction false} SplitOfJoin(parts: seq<string>)
    requires |parts| > 0 && forall i | 0 <= i < |parts| :: SlashFree(parts[i])
    ensures Split(Join(parts)) == parts
  {
    var n := |parts| - 1;
    if n == 0 {
      SplitAppend("", parts[0]);
      assert "" + parts[0] == parts[0];
    } else {
      SplitOfJoin(parts[..n]);
      var front := Join(parts[..n]);
      assert (front + "/")[..|front|] == front;
      assert Split(front + "/") == parts[..n] + [""];
      SplitAppend(front + "/", parts[n]);
      assert "" + parts[n] == parts[n];
    }
  }

  lemma JoinAppend(parts: seq<string>, t: string)
    requires |parts| > 0
    ensures Join(parts[|parts| - 1 := parts[|parts| - 1] + t]) == Join(parts) + t
  {
    var n := |parts| - 1;
    var longer := parts[n := parts[n] + t];
    assert longer[..n] == parts[..n];
  }

  /** Joining undoes splitting, and the parts are free of slashes. */
  lemma {:induction false} JoinOfSplit(s: string)
    ensures Join(Split(s)) == s
    ensures forall i | 0 <= i < |Split(s)| :: SlashFree(Split(s)[i])
  {
    if |s| > 0 {
      var before, c := s[..|s| - 1], s[|s| - 1];
      JoinOfSplit(before);
      assert s == before + [c];
      if c == '/' {
        assert (Split(before) + [""])[..|Split(before)|] == Split(before);
        assert Join(Split(s)) == before + "/" + "";
      } else {
        JoinAppend(Split(before), [c]);
      }
    }
  }

  lemma {:induction false} BytesOfJoin(parts: seq<string>, c: char)
    requires |parts| > 0
    ensures c in Join(parts) <==> (c == '/' && |parts| > 1) || exists i :: 0 <= i < |parts| && c in parts[i]
  {
    var n := |parts| - 1;
    if n > 0 {
      BytesOfJoin(parts[..n], c);
      assert c in Join(parts) <==> c in Join(parts[..n]) || c == '/' || c in parts[n];
      assert (exists i :: 0 <= i < |parts| && c in parts[i]) <==>
        (exists i :: 0 <= i < n && c in parts[..n][i]) || c in parts[n];
    }
  }

  // ----- the grammar -----

  lemma LastOfJoin(parts: seq<string>)
    requires |parts| > 0 && |parts[|parts| - 1]| > 0
    ensures |Join(parts)| > 0
    ensures Join(parts)[|Join(parts)| - 1] == parts[|parts| - 1][|parts[|parts| - 1]| - 1]
  {
  }

  /** What is written is read back: the parts, and whether it is a directory. */
  lemma ParsedOfWritten(name: Name, limits: Limits)
    requires InGrammar(name, limits)
    ensures Parsed(Written(name)) == name && WellFormed(Written(name), limits)
  {
    hide NameByte, Split, SafeByte, SafePart;
    var raw, joined := Written(name), Join(name.parts);
    var last := name.parts[|name.parts| - 1];
    forall c: char ensures SafeByte(c) <==> NameByte(c) || c == '/' { SafeBytesListed(c); }
    assert !NameByte('/') by { NoSlash(); }
    assert NamePart(last);
    LastOfJoin(name.parts);
    assert joined[|joined| - 1] == last[|last| - 1] != '/';
    assert TrimSlashes(raw) == joined by { assert name.directory ==> raw[..|raw| - 1] == joined; }
    forall i | 0 <= i < |name.parts| ensures SlashFree(name.parts[i]) && SafePart(name.parts[i]) {
      assert NamePart(name.parts[i]);
      SafePartMeans(name.parts[i]);
    }
    SplitOfJoin(name.parts);
    forall i | 0 <= i < |raw| ensures SafeByte(raw[i]) {
      BytesOfJoin(name.parts, raw[i]);
      assert i < |joined| ==> raw[i] in joined;
    }
  }

  lemma NoSlash()
    ensures !NameByte('/')
  {
  }

  /** A name is well formed exactly when it is written from parts of the grammar; they are what it is read as. */
  lemma WellFormedIffWritten(raw: string, limits: Limits)
    ensures WellFormed(raw, limits) <==> InGrammar(Parsed(raw), limits) && raw == Written(Parsed(raw))
    ensures WellFormed(raw, limits) <==> exists name :: InGrammar(name, limits) && raw == Written(name)
  {
    hide NameByte, Split, SafeByte, SafePart, NamePart, Parsed;
    if WellFormed(raw, limits) {
      WellFormedIsWritten(raw, limits);
    }
    forall name | InGrammar(name, limits) && raw == Written(name)
      ensures WellFormed(raw, limits) && Parsed(raw) == name
    {
      ParsedOfWritten(name, limits);
    }
  }

  lemma WellFormedIsWritten(raw: string, limits: Limits)
    requires WellFormed(raw, limits)
    ensures InGrammar(Parsed(raw), limits) && raw == Written(Parsed(raw))
  {
    hide NameByte, Split, SafeByte, SafePart;
    var name, trimmed := Parsed(raw), TrimSlashes(raw);
    assert trimmed == (if name.directory then raw[..|raw| - 1] else raw) by {
      assert name.directory ==> TrimSlashes(raw) == TrimSlashes(raw[..|raw| - 1]) == raw[..|raw| - 1];
    }
    JoinOfSplit(trimmed);
    forall i | 0 <= i < |name.parts| ensures NamePart(name.parts[i]) {
      forall j | 0 <= j < |name.parts[i]| ensures SafeByte(name.parts[i][j]) && name.parts[i][j] != '/' {
        assert SlashFree(name.parts[i]) && name.parts[i][j] in name.parts[i];
        BytesOfJoin(name.parts, name.parts[i][j]);
        assert name.parts[i][j] in raw;
      }
      SafePartMeans(name.parts[i]);
    }
    assert name.directory ==> raw == trimmed + "/";
  }
}
