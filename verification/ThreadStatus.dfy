/** Where a thread context is between its thread and the backend (haclog_thread_context.h). */
module ThreadStatus {
  datatype Status = NORMAL | WAIT_REMOVE | DONE
}
