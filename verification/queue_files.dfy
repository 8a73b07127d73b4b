/** The file-system vocabulary the queues share: storage as a map from path to
    contents, `Path.Combine`, `File.WriteAllText`, `File.AppendAllLines`,
    `File.Delete`, and the rolling per-queue counter that keeps file names of
    messages stamped in the same millisecond apart. */
module QueueFiles {
  import opened Base
  import opened Text
  import DateTimes

  /** The directories a queue touches, as path to text. */
  type Disk = map<string, string>

  /** `Environment.NewLine` on Windows, which `AppendAllLines` writes after every line. */
  const NewLine: string := "\r\n"

  /** `Path.Combine(dir, name)` for a relative `name`: one backslash between the two
      unless `dir` is empty or already ends in a separator or a drive colon. */
  function PathCombine(dir: string, name: string): (p: string)
    ensures |dir| == 0 ==> p == name
    ensures |p| >= |dir| + |name|
    ensures |dir| > 0 ==> p[..|dir|] == dir && p[|p| - |name|..] == name
  {
    if |dir| == 0 then name
    else if dir[|dir| - 1] in "\\/:" then dir + name
    else dir + "\\" + name
  }

  /** `File.WriteAllText(path, text)`: creates or replaces. */
  function WriteAllText(disk: Disk, path: string, text: string): (d: Disk)
    ensures path in d && d[path] == text
    ensures forall p :: p in disk && p != path ==> p in d && d[p] == disk[p]
  {
    disk[path := text]
  }

  /** `File.AppendAllLines(path, new[] { line })`: creates the file when missing, then appends the line and a newline. */
  function AppendLine(disk: Disk, path: string, line: string): (d: Disk)
    ensures path in d && d[path] == (if path in disk then disk[path] else "") + line + NewLine
    ensures forall p :: p in disk && p != path ==> p in d && d[p] == disk[p]
  {
    disk[path := (if path in disk then disk[path] else "") + line + NewLine]
  }

  /** `File.Delete(path)`: a null path throws `ArgumentNullException`; a missing file is not an error. */
  function Delete(disk: Disk, path: Option<string>): (r: Result<Disk>)
    ensures r.Err? <==> path.None?
    ensures r.Ok? ==> path.value !in r.value && forall p :: p in disk && p != path.value ==> p in r.value && r.value[p] == disk[p]
    ensures r.Ok? ==> r.value.Keys <= disk.Keys
  {
    if path.None? then Err(ArgumentError("Value cannot be null. Parameter name: path"))
    else Ok(disk - {path.value})
  }

  /** Append a log line to `dir\<prefix>-<stem>.log`, then delete the message's own file:
      the shared shape of `LogRead`, `LogSent` and `LogFailed`. The append happens even
      when the delete then throws. */
  function LogAndDelete(disk: Disk, dir: string, prefix: string, stem: string, line: string,
                        file: Option<string>): (r: (Disk, Option<Exn>))
    ensures r.1.Some? <==> file.None?
    ensures file.None? ==> r.0 == AppendLine(disk, LogPath(dir, prefix, stem), line)
    ensures file.Some? ==> r.0.Keys == (disk.Keys + {LogPath(dir, prefix, stem)}) - {file.value}
    ensures file.Some? && file.value != LogPath(dir, prefix, stem) ==>
              r.0 == AppendLine(disk, LogPath(dir, prefix, stem), line) - {file.value}
  {
    var appended := AppendLine(disk, LogPath(dir, prefix, stem), line);
    match Delete(appended, file)
    case Ok(d) => (d, None)
    case Err(e) => (appended, Some(e))
  }

  /** `dir\<prefix>-<stem>.log`. */
  function LogPath(dir: string, prefix: string, stem: string): string
  {
    PathCombine(dir, prefix + "-" + stem + ".log")
  }

  /** `tcount = tcount > 9999 ? 0 : tcount + 1` on a `ushort`. */
  function NextCount(t: UInt16): (r: UInt16)
    ensures r <= 10000
    ensures r == 0 <==> t > 9999
    ensures t <= 9999 ==> r == t + 1
  {
    if t > 9999 then 0 else t + 1
  }

  /** The counter after `n` updates from zero. */
  function CountAfter(n: nat): UInt16
  {
    if n == 0 then 0 else NextCount(CountAfter(n - 1))
  }

  /** From zero the counter runs through 0..10000 and wraps: 10000 is reached once per cycle of 10001. */
  lemma {:induction false} CountCycle(n: nat)
    ensures CountAfter(n) == n % 10001
  {
    if n > 0 {
      CountCycle(n - 1);
    }
  }

  /** The counter field is four digits for every value but 10000, which prints five. */
  lemma CounterWidth(t: UInt16)
    requires t <= 10000
    ensures t < 10000 ==> |PadNat(t, 4)| == 4
    ensures t == 10000 ==> |PadNat(t, 4)| == 5
  {
    if t < 10000 {
      assert Pow10(4) == 10000;
      PadNatExactWidth(t, 4);
    } else {
      assert Pow10(5) == 100000;
      PadNatExactWidth(t, 5);
      NatToStringWidth(t, 5, 100000);
      assert |NatToString(t)| >= 5 by {
        NatToStringValue(t);
        DigitsValueBound(NatToString(t));
        assert Pow10(1) == 10 && Pow10(2) == 100 && Pow10(3) == 1000 && Pow10(4) == 10000;
      }
    }
  }

  /** The file name every queue gives a message: stamp, counter, destination fingerprint, extension. */
  function MessageFileName(stamp: string, count: UInt16, fingerprint: string, ext: string): string
  {
    stamp + "-" + PadNat(count, 4) + "-" + fingerprint + ext
  }

  /** A message file name starts with its stamp. */
  lemma FileNameStartsWithStamp(stamp: string, count: UInt16, fingerprint: string, ext: string)
    ensures var name := MessageFileName(stamp, count, fingerprint, ext);
      |name| >= |stamp| && name[..|stamp|] == stamp
  {
    var pad := PadNat(count, 4);
    var rest := "-" + pad + "-" + fingerprint + ext;
    assert stamp + "-" + pad + "-" + fingerprint + ext == stamp + rest;
    assert (stamp + rest)[..|stamp|] == stamp;
  }

  /** At position `at` of `name` stands a dash, the counter padded to four digits, and a dash;
      the digits read back as the counter. */
  predicate CounterField(name: string, at: nat, count: UInt16)
  {
    var pad := PadNat(count, 4);
    var k := at + 1 + |pad|;
    && |name| > k && name[at] == '-' && name[at + 1..k] == pad && name[k] == '-'
    && AllDigits(name[at + 1..k]) && DigitsValue(name[at + 1..k]) == count as nat
  }

  /** After the stamp comes the counter field. */
  lemma FileNameCounter(stamp: string, count: UInt16, fingerprint: string, ext: string)
    ensures CounterField(MessageFileName(stamp, count, fingerprint, ext), |stamp|, count)
  {
    var pad := PadNat(count, 4);
    var name := stamp + "-" + pad + "-" + fingerprint + ext;
    var k := |stamp| + 1 + |pad|;
    assert name == (stamp + "-" + pad) + ("-" + fingerprint + ext);
    assert name[|stamp| + 1..k] == pad;
    PadNatValue(count as nat, 4);
  }
}
