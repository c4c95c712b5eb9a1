/** The changes of projects through the interface, among the steps of the capture pipeline. */
module ProjectHandlers {
  import opened Json
  import opened Projects
  import opened CapturePipeline
  import opened CaptureService

  /** The retentions in the table are those of the step system. */
  ghost predicate Agree(svc: Service, projects: ProjectService)
    reads svc, svc.writer.pool, svc.writer.pool.files, svc.store, projects
  {
    svc.Valid() && projects.Valid() && svc.model.projects == RetentionsOf(projects.rows)
  }

  method CreateProject(svc: Service, projects: ProjectService, p: ProjectCache.Project) returns (id: int)
    requires Agree(svc, projects)
    modifies svc`model, svc`trace, projects
    ensures Agree(svc, projects) && Live(svc.model.projects, id) && !Live(old(svc.model).projects, id)
    ensures svc.trace == old(svc.trace) + [Label.CreateProject(p.retentionDays)]
  {
    id := projects.Create(p);
    svc.Step(Label.CreateProject(p.retentionDays));
  }

  method UpdateProject(svc: Service, projects: ProjectService, id: int, p: ProjectCache.Project)
    requires Agree(svc, projects)
    modifies svc`model, svc`trace, projects
    ensures Agree(svc, projects) && (Live(svc.model.projects, id) <==> Live(old(svc.model).projects, id))
    ensures Live(svc.model.projects, id) ==> svc.model.projects[id - 1] == Some(p.retentionDays)
    ensures svc.trace == old(svc.trace) + [Label.UpdateProject(id, p.retentionDays)]
  {
    projects.Update(id, p);
    svc.Step(Label.UpdateProject(id, p.retentionDays));
  }

  /** A project that was there is deleted for good. */
  method DeleteProject(svc: Service, projects: ProjectService, id: int)
    requires Agree(svc, projects)
    modifies svc`model, svc`trace, projects
    ensures Agree(svc, projects) && !Live(svc.model.projects, id)
    ensures Live(old(svc.model).projects, id) ==> Gone(svc.model.projects, id)
    ensures svc.trace == old(svc.trace) + [Label.DeleteProject(id)]
  {
    projects.Delete(id);
    svc.Step(Label.DeleteProject(id));
  }
}
