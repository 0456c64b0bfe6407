/** Taking everything down: `release_memfs_resources` and `unmount_root_memfs`. */
module Release {
  import opened DirTable
  import opened Kernel
  import opened MemfsTable
  import opened Paths
  import opened WorkingDir
  import opened Wrappers

  /** No stream, open file, mount point or working directory is left, and every kernel descriptor ever taken
      was closed exactly as often as it was taken. The images stay. */
  method ReleaseMemfsResources(d: Directories, t: Tables, c: WorkingDirectory)
    requires d.Valid()
    modifies d`streams, d.files, t`mounts, c
    ensures d.AllHold() && d.streams == map[] && d.files.fds == map[] && Held(d.files.log) == Some({})
    ensures forall fd :: Count(d.files.log, Dupped(fd)) == Count(d.files.log, Closed(fd))
    ensures t.mounts == map[] && c.cwd == EMPTY_PATH
  {
    d.Release();
    t.ClearMounts();
    c.Drop();
  }

  /** The images go, too. */
  method UnmountRootMemfs(d: Directories, t: Tables, c: WorkingDirectory)
    requires d.Valid()
    modifies d`streams, d.files, t, c
    ensures d.AllHold() && d.streams == map[] && d.files.fds == map[] && Held(d.files.log) == Some({})
    ensures forall fd :: Count(d.files.log, Dupped(fd)) == Count(d.files.log, Closed(fd))
    ensures t.entries == map[] && t.mounts == map[] && c.cwd == EMPTY_PATH
  {
    ReleaseMemfsResources(d, t, c);
    t.Clear();
  }
}
