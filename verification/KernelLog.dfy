/** The kernel module's message log (`KernelErrorHandler`): the end of an unbounded log, kept in
    a fixed buffer. */
module KernelLog {
  import opened Texts

  const LOGBUF_SIZ: nat := 4096
  const LOGBUF_SAVESIZ: nat := 2048

  /** A line without its `chatter: ` prefix. */
  function Stripped(line: string): string {
    if StartsWith(line, "chatter: ") then line[9..] else line
  }

  const NEWLINE := "\n"

  predicate IsSuffix(t: string, s: string) {
    |t| <= |s| && t == s[|s| - |t|..]
  }

  lemma SuffixAppend(t: string, s: string, more: string)
    requires IsSuffix(t, s)
    ensures IsSuffix(t + more, s + more)
  {
  }

  lemma SuffixOfSuffix(u: string, t: string, s: string)
    requires IsSuffix(u, t) && IsSuffix(t, s)
    ensures IsSuffix(u, s)
  {
  }

  lemma SuffixOfEnd(u: string, a: string, b: string)
    requires IsSuffix(u, b)
    ensures IsSuffix(u, a + b)
  {
  }

  /** The retained text is the end of everything logged since the last clear, and never less
      than its last 2048 bytes. */
  ghost predicate Retains(kept: string, log: string) {
    IsSuffix(kept, log) && (kept == log || |kept| >= 2048)
  }

  /** `kept` was retained, `roomed` is left of it after making room, and `text` is written, which
      is the line or, when nothing else is left, its end. */
  lemma RetainsMore(roomed: string, kept: string, log: string, text: string, line: string)
    requires Retains(kept, log) && IsSuffix(roomed, kept) && IsSuffix(text, line)
    requires |roomed| == |kept| || |roomed| + |line| >= LOGBUF_SAVESIZ
    requires text == line || (roomed == "" && |text| >= LOGBUF_SAVESIZ)
    ensures Retains(roomed + (text + NEWLINE), log + (line + NEWLINE))
  {
    if text == line {
      SuffixOfSuffix(roomed, kept, log);
      SuffixAppend(roomed, log, line + NEWLINE);
    } else {
      SuffixAppend(text, line, NEWLINE);
      SuffixOfEnd(text + NEWLINE, log, line + NEWLINE);
      assert roomed + (text + NEWLINE) == text + NEWLINE;
    }
  }

  /** The part of a line that is written at `pos`: its end, when it is too long for the buffer. */
  function LineEnd(line: string, pos: nat): (text: string)
    requires pos + |line| <= LOGBUF_SIZ - 1 || pos == 0
    ensures IsSuffix(text, line) && pos + |text| <= LOGBUF_SIZ - 1
    ensures text == line || |text| == LOGBUF_SIZ - 1
  {
    if pos + |line| > LOGBUF_SIZ - 1 then line[|line| - (LOGBUF_SIZ - 1)..] else line
  }

  /** What is left of the buffer's text after making room for `n` bytes and a newline: all of it, or
      all but its first 2048 bytes, or nothing. */
  function Roomed(kept: string, n: nat): string {
    if |kept| + n <= 4095 then kept
    else if |kept| >= 2048 && |kept| - 2048 + n <= 4095 then kept[2048..]
    else ""
  }

  class KernelErrorHandler {
    const logbuf: array<char>
    var pos: nat
    var generation: nat
    /** Everything logged since the last clear. */
    ghost var log: string

    ghost predicate Valid()
      reads this, logbuf
    {
      logbuf.Length == 4096 && pos <= LOGBUF_SIZ && Retains(logbuf[..pos], log)
    }

    constructor ()
      ensures Valid() && fresh(logbuf) && log == "" && pos == 0 && generation == 0
    {
      logbuf := new char[LOGBUF_SIZ];
      pos, generation, log := 0, 0, "";
    }

    method ClearLog()
      requires Valid()
      modifies this
      ensures Valid() && log == "" && pos == 0 && generation == old(generation) + 2
    {
      pos, generation, log := 0, generation + 2, "";
    }

    /** Making room for `n` bytes and a newline: the older half goes, or everything. */
    method MakeRoom(n: nat)
      requires Valid()
      modifies this`pos, this`generation, logbuf
      ensures pos <= LOGBUF_SIZ && logbuf[..pos] == Roomed(old(logbuf[..pos]), n)
      ensures IsSuffix(logbuf[..pos], old(logbuf[..pos]))
      ensures pos + n <= LOGBUF_SIZ - 1 || pos == 0
      ensures pos == old(pos) || pos + n >= LOGBUF_SAVESIZ
      ensures generation == old(generation) + (if old(pos) + n > 4095 && old(pos) >= 2048 then 1 else 0)
                            + (if old(pos) + n > 4095 && (old(pos) < 2048 || old(pos) - 2048 + n > 4095) then 2 else 0)
    {
      if pos + n > LOGBUF_SIZ - 1 && pos >= LOGBUF_SAVESIZ {
        var rest := pos - LOGBUF_SAVESIZ;
        forall i | 0 <= i < rest {
          logbuf[i] := logbuf[LOGBUF_SAVESIZ + i];
        }
        assert logbuf[..rest] == old(logbuf[..pos])[LOGBUF_SAVESIZ..];
        pos := rest;
        generation := generation + 1;
      }
      if pos + n > LOGBUF_SIZ - 1 {
        pos := 0;
        generation := generation + 2;
      }
    }

    method LogLine(line: string)
      requires Valid()
      modifies this, logbuf
      ensures Valid()
      ensures forall rest :: line == "chatter: " + rest ==> log == old(log) + (rest + "\n")
      ensures |line| < 9 || line[..9] != "chatter: " ==> log == old(log) + (line + "\n")
      ensures generation == old(generation) ==> old(logbuf[..pos]) <= logbuf[..pos]
    {
      assert forall rest :: line == "chatter: " + rest ==> line[..9] == "chatter: " && line[9..] == rest;
      Append(Stripped(line));
    }

    method Append(line: string)
      requires Valid()
      modifies this, logbuf
      ensures Valid() && log == old(log) + (line + NEWLINE)
      ensures generation == old(generation) ==> old(logbuf[..pos]) <= logbuf[..pos]
    {
      ghost var kept, full := logbuf[..pos], log;
      MakeRoom(|line|);
      ghost var roomed := logbuf[..pos];
      var text := LineEnd(line, pos);
      Write(text);
      RetainsMore(roomed, kept, full, text, line);
      log := log + (line + NEWLINE);
    }

    method Write(text: string)
      requires logbuf.Length == LOGBUF_SIZ && pos + |text| <= LOGBUF_SIZ - 1
      modifies this`pos, logbuf
      ensures pos == old(pos) + |text| + 1 && logbuf[..pos] == old(logbuf[..pos]) + (text + NEWLINE)
    {
      forall i | 0 <= i < |text| {
        logbuf[pos + i] := text[i];
      }
      pos := pos + |text|;
      logbuf[pos] := '\n';
      pos := pos + 1;
    }
  }
}
