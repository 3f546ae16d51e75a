/** Process identifiers, statuses and the per-process details record. */
module Proc {

  /** A process identifier (`usize` in the kernel; unbounded here). */
  type PID = nat

  /** The state of a process. */
  datatype ProcStatus = Running | Sleeping | SleepingUnint | Dead

  /** The details of one process and their getters. */
  datatype ProcDetails = ProcDetails(
    pid: PID,
    tty: string,
    status: ProcStatus,
    env: string,
    cmd: string,
    cwd: string)
  {
    function Pid(): PID { pid }
    function Tty(): string { tty }
    function Status(): ProcStatus { status }
    function Env(): string { env }
    function Cmd(): string { cmd }
    function Cwd(): string { cwd }
  }

  /** Every getter returns the field the record was built with. */
  lemma GettersReturnFields(pid: PID, tty: string, status: ProcStatus, env: string, cmd: string, cwd: string)
    ensures var d := ProcDetails(pid, tty, status, env, cmd, cwd);
      && d.Pid() == pid && d.Tty() == tty && d.Status() == status
      && d.Env() == env && d.Cmd() == cmd && d.Cwd() == cwd
  {
  }

  /** The six getters together determine the record: they lose nothing. */
  lemma GettersDetermineDetails(d: ProcDetails, e: ProcDetails)
    ensures (d.Pid() == e.Pid() && d.Tty() == e.Tty() && d.Status() == e.Status()
             && d.Env() == e.Env() && d.Cmd() == e.Cmd() && d.Cwd() == e.Cwd()) <==> d == e
  {
  }

  /** `ProcStatus` has exactly four variants. */
  lemma ProcStatusVariants(s: ProcStatus)
    ensures s in {Running, Sleeping, SleepingUnint, Dead}
    ensures |{Running, Sleeping, SleepingUnint, Dead}| == 4
  {
  }
}
