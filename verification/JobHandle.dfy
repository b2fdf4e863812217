/** The text form of a Salt job handle. */
module JobHandle {
  import opened Results

  datatype Job = Job(name: string, id: string)

  const SEPARATOR := '/'

  /** The text before the first separator and the text after it, if there is one. */
  function Cut(text: string): (string, Option<string>) {
    if text == "" then ("", None)
    else if text[0] == SEPARATOR then ("", Some(text[1..]))
    else
      var rest := Cut(text[1..]);
      ([text[0]] + rest.0, rest.1)
  }

  /** The text split at its first separators, in `n` parts at most. */
  function SplitN(text: string, n: nat): (parts: seq<string>)
    requires n > 0
    decreases n
  {
    if n == 1 || Cut(text).1.None? then [text]
    else [Cut(text).0] + SplitN(Cut(text).1.value, n - 1)
  }

  function ToString(job: Job): string {
    job.name + [SEPARATOR] + job.id
  }

  function FromString(text: string): Result<Job, string> {
    if text == "" then Ok(Job("", ""))
    else
      var parts := SplitN(text, 3);
      if |parts| == 2 || |parts| == 3 then Ok(Job(parts[0], parts[1])) else Err(text)
  }

  lemma {:induction false} CutIsFirst(before: string, after: string)
    requires SEPARATOR !in before
    ensures Cut(before + [SEPARATOR] + after) == (before, Some(after))
    ensures Cut(before) == (before, None)
  {
    var text := before + [SEPARATOR] + after;
    if before == "" {
      assert text == [SEPARATOR] + after;
    } else {
      CutIsFirst(before[1..], after);
      assert text[1..] == before[1..] + [SEPARATOR] + after;
      assert before == [before[0]] + before[1..];
    }
  }

  lemma {:induction false} CutAll(text: string)
    ensures SEPARATOR !in Cut(text).0
    ensures Cut(text).1.None? <==> SEPARATOR !in text
    ensures Cut(text).1.None? ==> Cut(text).0 == text
    ensures Cut(text).1.Some? ==> text == Cut(text).0 + [SEPARATOR] + Cut(text).1.value
  {
    if text != "" {
      assert text == [text[0]] + text[1..];
      if text[0] != SEPARATOR {
        CutAll(text[1..]);
      }
    }
  }

  /** Reading a text fails exactly when it is not empty and has no separator; no text is the empty handle. */
  lemma FromStringMeans(text: string)
    ensures FromString(text).Err? <==> text != "" && '/' !in text
    ensures text == "" ==> FromString(text) == Ok(Job("", ""))
  {
    if text != "" {
      ReadByCuts(text);
    }
  }

  /** A text of two parts gives these parts; of a text of more parts, as in the old format, the first two are taken. */
  lemma FromParts(name: string, id: string, rest: string)
    requires '/' !in name && '/' !in id
    ensures FromString(name + "/" + id) == Ok(Job(name, id))
    ensures FromString(name + "/" + id + "/" + rest) == Ok(Job(name, id))
  {
    ReadByCuts(name + "/" + id);
    CutIsFirst(name, id);
    CutIsFirst(id, rest);
    var after := id + "/" + rest;
    assert name + "/" + id + "/" + rest == name + "/" + after;
    ReadByCuts(name + "/" + after);
    CutIsFirst(name, after);
  }

  lemma ReadByCuts(text: string)
    requires text != ""
    ensures FromString(text).Err? <==> SEPARATOR !in text
    ensures FromString(text).Ok? ==>
              FromString(text).value == Job(Cut(text).0, Cut(Cut(text).1.value).0)
  {
    CutAll(text);
    if Cut(text).1.Some? {
      var rest := Cut(text).1.value;
      CutAll(rest);
      assert SplitN(text, 3) == [Cut(text).0] + SplitN(rest, 2);
      if Cut(rest).1.Some? {
        assert SplitN(rest, 2) == [Cut(rest).0] + SplitN(Cut(rest).1.value, 1);
      }
    }
  }

  /** A handle is read back from its text exactly when neither of its parts holds a separator. */
  lemma RoundTripExactlyWhen(job: Job)
    ensures FromString(ToString(job)) == Ok(job) <==> '/' !in job.name && '/' !in job.id
  {
    var text := ToString(job);
    assert SEPARATOR in text;
    ReadByCuts(text);
    CutAll(text);
    CutAll(Cut(text).1.value);
    if SEPARATOR !in job.name {
      CutIsFirst(job.name, job.id);
      if SEPARATOR !in job.id {
        CutIsFirst(job.id, "");
      }
    }
  }

  /** The old format, in three parts, gives its first two. */
  lemma OldFormat(job: Job, rest: string)
    requires '/' !in job.name && '/' !in job.id
    ensures FromString(ToString(job) + "/" + rest) == Ok(job)
  {
    FromParts(job.name, job.id, rest);
  }
}
