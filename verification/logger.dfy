/** `EMLogger`: prefixes each message with its level, the module name and,
    once, a submodule name. The `printf`-style expansion of the message is
    left to the caller: `Emit` receives the expanded text and cuts it to
    the 4095 bytes the 4096-byte buffer of `vsnprintf` can hold. Strings
    here are byte strings: each `char` stands for one byte of the C
    string, so lengths count bytes, as `vsnprintf` does. */
module Logger {
  /** Bytes `vsnprintf` keeps: the buffer size minus the terminator. */
  const MessageCapacity: nat := 4095

  datatype Level = Info | Warning | Error | Fatal

  function LevelName(l: Level): string
  {
    match l
    case Info => "INFO"
    case Warning => "WARNING"
    case Error => "ERROR"
    case Fatal => "FATAL"
  }

  datatype EMLogger = EMLogger(moduleName: string, submoduleName: string)

  /** The default constructor's module name. */
  const DefaultLogger: EMLogger := EMLogger("Logger", "")

  function NewLogger(moduleName: string): (l: EMLogger)
    ensures l.moduleName == moduleName && l.submoduleName == ""
  {
    EMLogger(moduleName, "")
  }

  /** `submodule`: names the submodule of the next line only. */
  function Submodule(l: EMLogger, sub: string): (r: EMLogger)
    ensures r.moduleName == l.moduleName && r.submoduleName == sub
  {
    l.(submoduleName := sub)
  }

  /** What `vsnprintf` leaves of the expanded message. */
  function Truncate(msg: string): (t: string)
    ensures |t| <= MessageCapacity && t <= msg
    ensures |msg| <= MessageCapacity ==> t == msg
  {
    if |msg| <= MessageCapacity then msg else msg[..MessageCapacity]
  }

  /** The bracketed tag of a name. */
  function Tag(s: string): string
  {
    "[" + s + "]"
  }

  /** `infof`, `warnf`, `errorf`, `fatalf`: the line printed and the logger
      afterwards. The submodule tag appears only when a submodule is set,
      and the submodule is then forgotten. */
  function Emit(l: EMLogger, level: Level, msg: string): (r: (EMLogger, string))
    ensures r.0 == EMLogger(l.moduleName, "")
    ensures r.1 == Tag(LevelName(level)) + Tag(l.moduleName) +
                   (if l.submoduleName == "" then "" else Tag(l.submoduleName)) + ": " + Truncate(msg) + "\n"
    ensures |r.1| == |LevelName(level)| + |l.moduleName| + 7 +
                     (if l.submoduleName == "" then 0 else |l.submoduleName| + 2) + |Truncate(msg)|
  {
    var prefix := if l.submoduleName != "" then Tag(LevelName(level)) + Tag(l.moduleName) + Tag(l.submoduleName)
                  else Tag(LevelName(level)) + Tag(l.moduleName);
    (EMLogger(l.moduleName, ""), prefix + ": " + Truncate(msg) + "\n")
  }

  /** A submodule applies to exactly one line: the next line carries its
      tag, the one after does not, and the module name stays throughout. */
  lemma SubmoduleLastsOneLine(l: EMLogger, sub: string, lv1: Level, m1: string, lv2: Level, m2: string)
    requires sub != ""
    ensures var (l1, line1) := Emit(Submodule(l, sub), lv1, m1);
            var (l2, line2) := Emit(l1, lv2, m2);
            line1 == Tag(LevelName(lv1)) + Tag(l.moduleName) + Tag(sub) + ": " + Truncate(m1) + "\n" &&
            line2 == Tag(LevelName(lv2)) + Tag(l.moduleName) + ": " + Truncate(m2) + "\n" &&
            l2 == EMLogger(l.moduleName, "")
  {
  }

  /** The message part of a line is a prefix of the message, so nothing is
      invented, and it is all of it when the message fits. */
  lemma LineEndsWithMessage(l: EMLogger, level: Level, msg: string)
    ensures var line := Emit(l, level, msg).1;
            var k := |line| - 1 - |Truncate(msg)|;
            0 <= k && line[k..|line| - 1] <= msg &&
            (|msg| <= MessageCapacity ==> line[k..|line| - 1] == msg) &&
            line[|line| - 1] == '\n'
  {
    var line := Emit(l, level, msg).1;
    var k := |line| - 1 - |Truncate(msg)|;
    assert line[k..|line| - 1] == Truncate(msg);
  }
}
